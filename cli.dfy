/** The argument loop of `main`: it walks `sys.argv` from index 1, updating
    the cgroup path, the run-as user, the timeout and the global
    configuration, until it exits, reaches `--` or runs out of arguments. */
module Cli {
  import opened Text
  import opened Config

  const TINYBOX_PREFIX := "tbox"

  /** The process globals read at start-up: `os.getpid()` and `$USER`. */
  datatype Env = Env(pid: nat, user: string)

  /** The variables the loop updates: `cgroup_path`, `runas_username`,
      `timeout` and the global `cgroup_config`. */
  datatype State = State(path: string, runas: string, timeout: Option<int>, config: Table)

  /** Everything `main` goes on with after the loop; `cmd` is `sys.argv[i:]`. */
  datatype Options = Options(path: string, runas: string, timeout: Option<int>, config: Table, cmd: seq<string>)

  /** Either the process exits with `code` during the loop, or it proceeds. */
  datatype Parsed = Exit(code: int) | Proceed(options: Options)

  /** An inline limit `-c.<controller>.<key>=<value>`. */
  datatype Param = Param(controller: string, key: string, value: string)

  /** The outcome of handling the argument at index `i`: continue at `next`,
      exit, or take the command from index `start` on. */
  datatype Step = Next(next: nat, state: State) | Stop(code: int) | Separator(start: nat)

  function DefaultPath(pid: nat): string
  {
    TINYBOX_PREFIX + "/task_" + IntToDecimal(pid)
  }

  function Initial(env: Env): State
  {
    State(DefaultPath(env.pid), env.user, None, [])
  }

  function Finish(st: State, cmd: seq<string>): Options
  {
    Options(st.path, st.runas, st.timeout, st.config, cmd)
  }

  /** Splitting `arg[3:]` on `=` and its left part on `.`: a valid token has
      exactly two parts both times. */
  function InlineParam(arg: string): Option<Param>
    requires StartsWith(arg, "-c.")
  {
    var kv := Split(arg[3..], '=');
    var ck := Split(kv[0], '.');
    if |kv| != 2 || |ck| != 2 then None else Some(Param(ck[0], ck[1], kv[1]))
  }

  function InlineToken(p: Param): string
  {
    "-c." + p.controller + "." + p.key + "=" + p.value
  }

  predicate Unambiguous(p: Param)
  {
    && '=' !in p.controller && '=' !in p.key && '=' !in p.value
    && '.' !in p.controller && '.' !in p.key
  }

  /** Adds the section if it is missing, then sets the key. */
  function ApplyParam(t: Table, p: Param): Table
  {
    SetItem(WithSection(t, p.controller), p.controller, p.key, p.value)
  }

  /** One turn of the loop at index `i`. */
  function StepAt(argv: seq<string>, i: nat, st: State, files: map<string, Table>): (r: Step)
    requires 1 <= i < |argv|
    ensures r.Next? ==> r.next <= |argv| && (r.next == i + 1 || r.next == i + 2)
    ensures r.Separator? ==> r.start == i + 1
  {
    var arg := argv[i];
    if arg == "-h" || arg == "--help" then Stop(0)
    else if arg == "-p" || arg == "--path" then
      if i + 1 >= |argv| then Stop(1) else Next(i + 2, st.(path := argv[i + 1]))
    else if arg == "-c" then
      if i + 1 >= |argv| then Stop(1)
      else if argv[i + 1] !in files then Next(i + 2, st)
      else Next(i + 2, st.(config := Merge(st.config, files[argv[i + 1]])))
    else if StartsWith(arg, "-c.") then
      match InlineParam(arg)
      case None => Next(i + 1, st)
      case Some(p) => Next(i + 1, st.(config := ApplyParam(st.config, p)))
    else if arg == "-t" || arg == "--timeout" then
      if i + 1 >= |argv| then Stop(1)
      else
        match ParseInt(argv[i + 1])
        case None => Stop(1)
        case Some(n) => Next(i + 2, st.(timeout := Some(n), config := WithSection(st.config, "cpuacct")))
    else if arg == "-r" || arg == "--run-as" then
      if i + 1 >= |argv| then Stop(1) else Next(i + 2, st.(runas := argv[i + 1]))
    else if arg == "--" then Separator(i + 1)
    else Stop(1)
  }

  /** The rest of the loop from index `i` in state `st`. */
  function ParseFrom(argv: seq<string>, i: nat, st: State, files: map<string, Table>): Parsed
    requires 1 <= i <= |argv|
    decreases |argv| - i
  {
    if i == |argv| then Proceed(Finish(st, []))
    else
      match StepAt(argv, i, st, files)
      case Stop(code) => Exit(code)
      case Separator(start) => Proceed(Finish(st, argv[start..]))
      case Next(next, st') => ParseFrom(argv, next, st', files)
  }

  /** The whole loop of `main` over `sys.argv`, whose first element is the
      program name. `files` maps each path that is a file to its parsed contents. */
  function Parse(argv: seq<string>, env: Env, files: map<string, Table>): Parsed
    requires |argv| >= 1
  {
    ParseFrom(argv, 1, Initial(env), files)
  }

  /** The loop itself, over the global configuration object. */
  method ParseArgs(argv: seq<string>, env: Env, files: map<string, Table>, config: ConfigParser) returns (r: Parsed)
    requires |argv| >= 1 && config.table == []
    modifies config
    ensures r == Parse(argv, env, files)
    ensures r.Proceed? ==> config.table == r.options.config
  {
    var i := 1;
    var argc := |argv|;
    var cgroupPath := TINYBOX_PREFIX + "/task_" + IntToDecimal(env.pid);
    var runasUsername := env.user;
    var timeout: Option<int> := None;
    while i < argc
      invariant 1 <= i <= argc
      invariant ParseFrom(argv, i, State(cgroupPath, runasUsername, timeout, config.table), files) == Parse(argv, env, files)
    {
      var step := ParseOption(argv, i, files, config, cgroupPath, runasUsername, timeout);
      match step
      case Stop(code) =>
        return Exit(code);
      case Separator(start) =>
        // `break`, then `cmd = sys.argv[i:]`
        return Proceed(Options(cgroupPath, runasUsername, timeout, config.table, argv[start..]));
      case Next(next, st) =>
        i, cgroupPath, runasUsername, timeout := next, st.path, st.runas, st.timeout;
    }
    var cmd := argv[i..];
    return Proceed(Options(cgroupPath, runasUsername, timeout, config.table, cmd));
  }

  /** One turn of the loop, on the option at `argv[i]`; the configuration
      object is updated in place. */
  method ParseOption(argv: seq<string>, i: nat, files: map<string, Table>, config: ConfigParser,
                     cgroupPath: string, runasUsername: string, timeout: Option<int>) returns (step: Step)
    requires 1 <= i < |argv|
    modifies config
    ensures step == StepAt(argv, i, State(cgroupPath, runasUsername, timeout, old(config.table)), files)
    ensures config.table == if step.Next? then step.state.config else old(config.table)
  {
    var st := State(cgroupPath, runasUsername, timeout, config.table);
    var arg := argv[i];
    if arg == "-h" || arg == "--help" {
      return Stop(0);
    } else if arg == "-p" || arg == "--path" {
      if i + 1 >= |argv| {
        return Stop(1);
      }
      return Next(i + 2, st.(path := argv[i + 1]));
    } else if arg == "-c" {
      if i + 1 >= |argv| {
        return Stop(1);
      } else if argv[i + 1] !in files {
        // not a file: skipped
      } else {
        config.Read(files[argv[i + 1]]);
      }
      return Next(i + 2, st.(config := config.table));
    } else if StartsWith(arg, "-c.") {
      ApplyInline(config, arg);
      return Next(i + 1, st.(config := config.table));
    } else if arg == "-t" || arg == "--timeout" {
      if i + 1 >= |argv| {
        return Stop(1);
      }
      var n := ParseInt(argv[i + 1]);
      if n.None? {
        return Stop(1);
      }
      EnsureSection(config, "cpuacct");
      return Next(i + 2, st.(timeout := n, config := config.table));
    } else if arg == "-r" || arg == "--run-as" {
      if i + 1 >= |argv| {
        return Stop(1);
      }
      return Next(i + 2, st.(runas := argv[i + 1]));
    } else if arg == "--" {
      return Separator(i + 1);
    } else {
      return Stop(1);
    }
  }

  /** `if c not in cgroup_config: cgroup_config.add_section(c)` */
  method EnsureSection(config: ConfigParser, c: string)
    modifies config
    ensures config.table == WithSection(old(config.table), c)
  {
    if c !in config.Sections() {
      config.AddSection(c);
    }
  }

  /** The `-c.` branch of the loop: a malformed token is skipped. */
  method ApplyInline(config: ConfigParser, arg: string)
    requires StartsWith(arg, "-c.")
    modifies config
    ensures config.table == match InlineParam(arg)
      case None => old(config.table)
      case Some(p) => ApplyParam(old(config.table), p)
  {
    var kvTokens := Split(arg[3..], '=');
    var ckTokens := Split(kvTokens[0], '.');
    if |kvTokens| != 2 || |ckTokens| != 2 {
      // not a valid cgroup param: skipped
    } else {
      EnsureSection(config, ckTokens[0]);
      config.Set(ckTokens[0], ckTokens[1], kvTokens[1]);
    }
  }

  // ---------------------------------------------------------------- inline tokens

  lemma InlineParamSound(arg: string)
    requires StartsWith(arg, "-c.") && InlineParam(arg).Some?
    ensures arg == InlineToken(InlineParam(arg).value) && Unambiguous(InlineParam(arg).value)
  {
    var kv := Split(arg[3..], '=');
    var ck := Split(kv[0], '.');
    SplitTwo(arg[3..], '=');
    SplitTwo(kv[0], '.');
    assert '=' !in ck[0] && '=' !in ck[1] by {
      assert forall x :: x in ck[0] || x in ck[1] ==> x in kv[0];
    }
    assert arg == "-c." + arg[3..];
  }

  lemma InlineParamComplete(p: Param)
    requires Unambiguous(p)
    ensures StartsWith(InlineToken(p), "-c.") && InlineParam(InlineToken(p)) == Some(p)
  {
    var arg := InlineToken(p);
    var left := p.controller + "." + p.key;
    assert arg[..3] == "-c.";
    assert arg[3..] == left + "=" + p.value;
    assert '=' !in left;
    assert Join([left, p.value], "=") == arg[3..];
    SplitJoin([left, p.value], '=');
    assert Join([p.controller, p.key], ".") == left;
    SplitJoin([p.controller, p.key], '.');
  }

  /** A `-c.` token is accepted exactly when it reads `-c.<c>.<k>=<v>` with
      one `=` and, before it, one `.`; it then stands for `(c, k, v)`. */
  lemma InlineParamIff(arg: string, p: Param)
    requires StartsWith(arg, "-c.")
    ensures InlineParam(arg) == Some(p) <==> arg == InlineToken(p) && Unambiguous(p)
  {
    if InlineParam(arg) == Some(p) {
      InlineParamSound(arg);
    }
    if arg == InlineToken(p) && Unambiguous(p) {
      InlineParamComplete(p);
    }
  }

  /** After an accepted token, the configuration holds its value under its
      controller and key, and every other entry is as before. */
  lemma ApplyParamLookup(t: Table, p: Param, c: string, k: string)
    ensures Names(ApplyParam(t, p)) == Names(WithSection(t, p.controller))
    ensures Lookup(ApplyParam(t, p), c, k) ==
      if c == p.controller && k == p.key then Some(p.value) else Lookup(t, c, k)
  {
    SetItemLookup(WithSection(t, p.controller), p.controller, p.key, p.value, c, k);
    WithSectionLookup(t, p.controller, c, k);
  }

  /** A later token for the same controller and key overwrites the earlier
      value and leaves the key where the earlier token put it. */
  lemma ApplyParamOverwrite(t: Table, p1: Param, p2: Param)
    requires p1.controller == p2.controller && p1.key == p2.key
    ensures ApplyParam(ApplyParam(t, p1), p2) == ApplyParam(t, p2)
  {
    var c := p1.controller;
    var t1 := WithSection(t, c);
    assert WithSection(ApplyParam(t, p1), c) == ApplyParam(t, p1);
    SetItemOverwrite(t1, c, p1.key, p1.value, p2.value);
  }

  // ---------------------------------------------------------------- single steps

  predicate TakesValue(arg: string)
  {
    arg == "-p" || arg == "--path" || arg == "-c" || arg == "-t" || arg == "--timeout" || arg == "-r" || arg == "--run-as"
  }

  predicate Recognised(arg: string)
  {
    TakesValue(arg) || arg == "-h" || arg == "--help" || arg == "--" || StartsWith(arg, "-c.")
  }

  /** No option spelled out in full starts with `-c.`. */
  lemma OptionsAreNotInline(arg: string)
    requires TakesValue(arg) || arg == "-h" || arg == "--help" || arg == "--"
    ensures !StartsWith(arg, "-c.")
  {
    if |arg| >= 3 {
      assert arg[1] != 'c';
      assert arg[..3][1] == arg[1];
    }
  }

  /** `-h` exits 0; an option missing its value, a `-t` value that is not an
      integer and an unknown argument exit 1. */
  lemma ExitStep(argv: seq<string>, i: nat, st: State, files: map<string, Table>)
    requires 1 <= i < |argv|
    ensures argv[i] == "-h" || argv[i] == "--help" ==> ParseFrom(argv, i, st, files) == Exit(0)
    ensures TakesValue(argv[i]) && i + 1 == |argv| ==> ParseFrom(argv, i, st, files) == Exit(1)
    ensures (argv[i] == "-t" || argv[i] == "--timeout") && i + 1 < |argv| && ParseInt(argv[i + 1]) == None ==>
      ParseFrom(argv, i, st, files) == Exit(1)
    ensures !Recognised(argv[i]) ==> ParseFrom(argv, i, st, files) == Exit(1)
  {
    if TakesValue(argv[i]) {
      OptionsAreNotInline(argv[i]);
    }
  }

  /** A `-c.` token never ends the loop: a malformed one is skipped, a valid
      one is applied to the configuration. */
  lemma InlineStep(argv: seq<string>, i: nat, st: State, files: map<string, Table>)
    requires 1 <= i < |argv| && StartsWith(argv[i], "-c.")
    ensures ParseFrom(argv, i, st, files) == ParseFrom(argv, i + 1,
      match InlineParam(argv[i]) case None => st case Some(p) => st.(config := ApplyParam(st.config, p)), files)
  {
    InlineStepAt(argv, i, st, files);
  }

  lemma InlineStepAt(argv: seq<string>, i: nat, st: State, files: map<string, Table>)
    requires 1 <= i < |argv| && StartsWith(argv[i], "-c.")
    ensures StepAt(argv, i, st, files) == Next(i + 1,
      match InlineParam(argv[i]) case None => st case Some(p) => st.(config := ApplyParam(st.config, p)))
  {
    var arg := argv[i];
    if TakesValue(arg) || arg == "-h" || arg == "--help" || arg == "--" {
      OptionsAreNotInline(arg);
      assert false;
    }
  }

  /** A turn that goes on moves past one argument exactly for a `-c.` token,
      and past an option and its value otherwise. */
  lemma StepAdvance(argv: seq<string>, i: nat, st: State, files: map<string, Table>)
    requires 1 <= i < |argv| && StepAt(argv, i, st, files).Next?
    ensures StepAt(argv, i, st, files).next == i + 1 <==> StartsWith(argv[i], "-c.")
  {
    if TakesValue(argv[i]) {
      OptionsAreNotInline(argv[i]);
    }
  }

  /** `-t n` records the timeout and makes sure a `cpuacct` section exists. */
  lemma TimeoutStep(argv: seq<string>, i: nat, st: State, files: map<string, Table>)
    requires 1 <= i && i + 1 < |argv| && (argv[i] == "-t" || argv[i] == "--timeout")
    requires ParseInt(argv[i + 1]).Some?
    ensures ParseFrom(argv, i, st, files) ==
      ParseFrom(argv, i + 2, st.(timeout := ParseInt(argv[i + 1]), config := WithSection(st.config, "cpuacct")), files)
    ensures "cpuacct" in Names(WithSection(st.config, "cpuacct"))
  {
    var st' := st.(timeout := ParseInt(argv[i + 1]), config := WithSection(st.config, "cpuacct"));
    TimeoutStepAt(argv, i, st, files);
    GoesOn(argv, i, st, files, i + 2, st');
  }

  lemma TimeoutStepAt(argv: seq<string>, i: nat, st: State, files: map<string, Table>)
    requires 1 <= i && i + 1 < |argv| && (argv[i] == "-t" || argv[i] == "--timeout")
    requires ParseInt(argv[i + 1]).Some?
    ensures StepAt(argv, i, st, files) ==
      Next(i + 2, st.(timeout := ParseInt(argv[i + 1]), config := WithSection(st.config, "cpuacct")))
  {
    OptionsAreNotInline(argv[i]);
  }

  /** `--` ends the loop; the command is everything after it, untouched. */
  lemma SeparatorStep(argv: seq<string>, i: nat, st: State, files: map<string, Table>)
    requires 1 <= i < |argv| && argv[i] == "--"
    ensures ParseFrom(argv, i, st, files) == Proceed(Finish(st, argv[i + 1..]))
  {
  }

  // ---------------------------------------------------------------- whole loop

  /** The loop exits only with 0 or 1, and with 0 only at a `-h` or `--help`. */
  lemma {:induction false} ExitCodes(argv: seq<string>, i: nat, st: State, files: map<string, Table>)
    requires 1 <= i <= |argv|
    ensures var r := ParseFrom(argv, i, st, files);
      r.Exit? ==>
        && (r.code == 0 || r.code == 1)
        && (r.code == 0 ==> exists j :: i <= j < |argv| && (argv[j] == "-h" || argv[j] == "--help"))
    decreases |argv| - i
  {
    if i < |argv| {
      match StepAt(argv, i, st, files)
      case Next(next, st') => ExitCodes(argv, next, st', files);
      case Stop(_) =>
      case Separator(_) =>
    }
  }

  /** The command is empty or exactly the arguments after some `--`. */
  lemma {:induction false} CommandIsSuffix(argv: seq<string>, i: nat, st: State, files: map<string, Table>)
    requires 1 <= i <= |argv|
    ensures var r := ParseFrom(argv, i, st, files);
      r.Proceed? ==>
        (r.options.cmd == [] || exists j :: i <= j < |argv| && argv[j] == "--" && r.options.cmd == argv[j + 1..])
    decreases |argv| - i
  {
    if i < |argv| {
      match StepAt(argv, i, st, files)
      case Next(next, st') => CommandIsSuffix(argv, next, st', files);
      case Stop(_) =>
      case Separator(_) =>
    }
  }

  /** Without any `--` the command is empty. */
  lemma NoSeparatorNoCommand(argv: seq<string>, env: Env, files: map<string, Table>)
    requires |argv| >= 1
    requires forall j :: 1 <= j < |argv| ==> argv[j] != "--"
    ensures Parse(argv, env, files).Proceed? ==> Parse(argv, env, files).options.cmd == []
  {
    CommandIsSuffix(argv, 1, Initial(env), files);
  }

  /** The loop reads only the words before the command: the command starts
      after every word from `i` on that the loop treats as an option. */
  lemma CommandAfterOptions(argv: seq<string>, i: nat, st: State, files: map<string, Table>)
    requires 1 <= i <= |argv|
    ensures var r := ParseFrom(argv, i, st, files);
      r.Proceed? ==> i <= |argv| - |r.options.cmd|
  {
    CommandIsSuffix(argv, i, st, files);
  }

  /** The path, the user and the timeout either keep their starting values or
      come from the value right after a `-p`, an `-r` or a `-t` among the
      options, never from the command. */
  lemma Provenance(argv: seq<string>, i: nat, st: State, files: map<string, Table>)
    requires 1 <= i <= |argv|
    ensures var r := ParseFrom(argv, i, st, files);
      r.Proceed? ==>
        var end := |argv| - |r.options.cmd|;
        && (r.options.path == st.path ||
            exists j :: i < j < end && (argv[j - 1] == "-p" || argv[j - 1] == "--path") && r.options.path == argv[j])
        && (r.options.runas == st.runas ||
            exists j :: i < j < end && (argv[j - 1] == "-r" || argv[j - 1] == "--run-as") && r.options.runas == argv[j])
        && (r.options.timeout == st.timeout ||
            exists j :: i < j < end && (argv[j - 1] == "-t" || argv[j - 1] == "--timeout") && r.options.timeout == ParseInt(argv[j]))
  {
    PathProvenance(argv, i, st, files);
    UserProvenance(argv, i, st, files);
    TimeoutProvenance(argv, i, st, files);
  }

  /** The path keeps its starting value or is the word after a `-p` among the options. */
  lemma PathProvenance(argv: seq<string>, i: nat, st: State, files: map<string, Table>)
    requires 1 <= i <= |argv|
    ensures var r := ParseFrom(argv, i, st, files);
      r.Proceed? ==>
        r.options.path == st.path ||
        exists j :: i < j < |argv| - |r.options.cmd| && (argv[j - 1] == "-p" || argv[j - 1] == "--path") && r.options.path == argv[j]
    decreases |argv| - i
  {
    if i < |argv| && StepAt(argv, i, st, files).Next? {
      var next, st' := StepAt(argv, i, st, files).next, StepAt(argv, i, st, files).state;
      var r := ParseFrom(argv, i, st, files);
      NextStep(argv, i, st, files);
      PathProvenance(argv, next, st', files);
      CommandAfterOptions(argv, next, st', files);
      PathStep(argv, i, st, files);
      if r.Proceed? && r.options.path == st'.path && st'.path != st.path {
        assert i < i + 1 < |argv| - |r.options.cmd| && (argv[i] == "-p" || argv[i] == "--path") && r.options.path == argv[i + 1];
      }
    }
  }

  lemma PathStep(argv: seq<string>, i: nat, st: State, files: map<string, Table>)
    requires 1 <= i < |argv| && StepAt(argv, i, st, files).Next?
    ensures var s := StepAt(argv, i, st, files);
      s.state.path == st.path || ((argv[i] == "-p" || argv[i] == "--path") && s.next == i + 2 && s.state.path == argv[i + 1])
  {
  }

  /** The user keeps its starting value or is the word after an `-r` among the options. */
  lemma UserProvenance(argv: seq<string>, i: nat, st: State, files: map<string, Table>)
    requires 1 <= i <= |argv|
    ensures var r := ParseFrom(argv, i, st, files);
      r.Proceed? ==>
        r.options.runas == st.runas ||
        exists j :: i < j < |argv| - |r.options.cmd| && (argv[j - 1] == "-r" || argv[j - 1] == "--run-as") && r.options.runas == argv[j]
    decreases |argv| - i
  {
    if i < |argv| && StepAt(argv, i, st, files).Next? {
      var next, st' := StepAt(argv, i, st, files).next, StepAt(argv, i, st, files).state;
      var r := ParseFrom(argv, i, st, files);
      NextStep(argv, i, st, files);
      UserProvenance(argv, next, st', files);
      CommandAfterOptions(argv, next, st', files);
      UserStep(argv, i, st, files);
      if r.Proceed? && r.options.runas == st'.runas && st'.runas != st.runas {
        assert i < i + 1 < |argv| - |r.options.cmd| && (argv[i] == "-r" || argv[i] == "--run-as") && r.options.runas == argv[i + 1];
      }
    }
  }

  lemma UserStep(argv: seq<string>, i: nat, st: State, files: map<string, Table>)
    requires 1 <= i < |argv| && StepAt(argv, i, st, files).Next?
    ensures var s := StepAt(argv, i, st, files);
      s.state.runas == st.runas || ((argv[i] == "-r" || argv[i] == "--run-as") && s.next == i + 2 && s.state.runas == argv[i + 1])
  {
  }

  /** The timeout keeps its starting value or is the integer after a `-t` among the options. */
  lemma TimeoutProvenance(argv: seq<string>, i: nat, st: State, files: map<string, Table>)
    requires 1 <= i <= |argv|
    ensures var r := ParseFrom(argv, i, st, files);
      r.Proceed? ==>
        r.options.timeout == st.timeout ||
        exists j :: i < j < |argv| - |r.options.cmd| && (argv[j - 1] == "-t" || argv[j - 1] == "--timeout") && r.options.timeout == ParseInt(argv[j])
    decreases |argv| - i
  {
    if i < |argv| && StepAt(argv, i, st, files).Next? {
      var next, st' := StepAt(argv, i, st, files).next, StepAt(argv, i, st, files).state;
      var r := ParseFrom(argv, i, st, files);
      NextStep(argv, i, st, files);
      TimeoutProvenance(argv, next, st', files);
      CommandAfterOptions(argv, next, st', files);
      TimeoutStepValue(argv, i, st, files);
      if r.Proceed? && r.options.timeout == st'.timeout && st'.timeout != st.timeout {
        assert i < i + 1 < |argv| - |r.options.cmd| && (argv[i] == "-t" || argv[i] == "--timeout") && r.options.timeout == ParseInt(argv[i + 1]);
      }
    }
  }

  lemma TimeoutStepValue(argv: seq<string>, i: nat, st: State, files: map<string, Table>)
    requires 1 <= i < |argv| && StepAt(argv, i, st, files).Next?
    ensures var s := StepAt(argv, i, st, files);
      s.state.timeout == st.timeout || ((argv[i] == "-t" || argv[i] == "--timeout") && s.next == i + 2 && s.state.timeout == ParseInt(argv[i + 1]))
  {
  }

  /** A turn that goes on to `next` in state `st'` leaves the rest of the
      loop to that index and state. */
  lemma GoesOn(argv: seq<string>, i: nat, st: State, files: map<string, Table>, next: nat, st': State)
    requires 1 <= i < |argv| && StepAt(argv, i, st, files) == Next(next, st')
    ensures ParseFrom(argv, i, st, files) == ParseFrom(argv, next, st', files)
  {
  }

  /** A turn that goes on leaves the rest of the loop to the next index. */
  lemma NextStep(argv: seq<string>, i: nat, st: State, files: map<string, Table>)
    requires 1 <= i < |argv| && StepAt(argv, i, st, files).Next?
    ensures var s := StepAt(argv, i, st, files);
      ParseFrom(argv, i, st, files) == ParseFrom(argv, s.next, s.state, files)
  {
  }

  /** Without `-p` among the options the path is `tbox/task_<pid>`; without
      `-r` the command runs as `$USER`; without `-t` there is no timeout.
      Words of the command after `--` play no part. */
  lemma Defaults(argv: seq<string>, env: Env, files: map<string, Table>)
    requires |argv| >= 1
    ensures var r := Parse(argv, env, files);
      r.Proceed? ==>
        var end := |argv| - |r.options.cmd|;
        && ((forall j :: 1 <= j < end ==> argv[j] != "-p" && argv[j] != "--path") ==> r.options.path == DefaultPath(env.pid))
        && ((forall j :: 1 <= j < end ==> argv[j] != "-r" && argv[j] != "--run-as") ==> r.options.runas == env.user)
        && ((forall j :: 1 <= j < end ==> argv[j] != "-t" && argv[j] != "--timeout") ==> r.options.timeout == None)
  {
    Provenance(argv, 1, Initial(env), files);
  }

  /** The last `-p` wins: a `-p v` with no `-p` after it among the options
      sets the path to `v`, whatever the command holds. */
  lemma LastPathWins(argv: seq<string>, i: nat, st: State, files: map<string, Table>)
    requires 1 <= i && i + 1 < |argv| && (argv[i] == "-p" || argv[i] == "--path")
    ensures var r := ParseFrom(argv, i, st, files);
      r.Proceed? && (forall j :: i + 1 < j < |argv| - |r.options.cmd| ==> argv[j] != "-p" && argv[j] != "--path") ==>
        r.options.path == argv[i + 1]
  {
    var st' := st.(path := argv[i + 1]);
    assert StepAt(argv, i, st, files) == Next(i + 2, st');
    GoesOn(argv, i, st, files, i + 2, st');
    PathProvenance(argv, i + 2, st', files);
  }

  /** The configuration stays well formed, sections already present keep
      their order ahead of new ones, and a timeout always comes with a
      `cpuacct` section. */
  lemma {:induction false} ConfigInvariant(argv: seq<string>, i: nat, st: State, files: map<string, Table>)
    requires 1 <= i <= |argv|
    requires WellFormed(st.config)
    requires st.timeout.Some? ==> "cpuacct" in Names(st.config)
    ensures var r := ParseFrom(argv, i, st, files);
      r.Proceed? ==>
        && WellFormed(r.options.config)
        && Names(st.config) <= Names(r.options.config)
        && (r.options.timeout.Some? ==> "cpuacct" in Names(r.options.config))
    decreases |argv| - i
  {
    if i < |argv| {
      match StepAt(argv, i, st, files)
      case Next(next, st') =>
        StepKeepsConfig(argv, i, st, files);
        ConfigInvariant(argv, next, st', files);
        var r := ParseFrom(argv, i, st, files);
        if r.Proceed? && r.options.timeout.Some? && st.timeout.Some? {
          var j :| 0 <= j < |Names(st.config)| && Names(st.config)[j] == "cpuacct";
          assert Names(st'.config)[j] == "cpuacct";
          assert Names(r.options.config)[j] == "cpuacct";
        }
      case Stop(_) =>
      case Separator(_) =>
    }
  }

  lemma StepKeepsConfig(argv: seq<string>, i: nat, st: State, files: map<string, Table>)
    requires 1 <= i < |argv| && StepAt(argv, i, st, files).Next?
    requires WellFormed(st.config)
    requires st.timeout.Some? ==> "cpuacct" in Names(st.config)
    ensures var st' := StepAt(argv, i, st, files).state;
      && WellFormed(st'.config)
      && Names(st.config) <= Names(st'.config)
      && (st'.timeout.Some? ==> "cpuacct" in Names(st'.config))
      && (st.timeout.Some? ==> "cpuacct" in Names(st'.config))
  {
    var st' := StepAt(argv, i, st, files).state;
    StepKeepsSections(argv, i, st, files);
    if st.timeout.Some? {
      var j :| 0 <= j < |Names(st.config)| && Names(st.config)[j] == "cpuacct";
      assert Names(st'.config)[j] == "cpuacct";
    }
  }

  /** One turn keeps the table well formed and its sections as a prefix. */
  lemma StepKeepsSections(argv: seq<string>, i: nat, st: State, files: map<string, Table>)
    requires 1 <= i < |argv| && StepAt(argv, i, st, files).Next?
    requires WellFormed(st.config)
    ensures var st' := StepAt(argv, i, st, files).state;
      && WellFormed(st'.config)
      && Names(st.config) <= Names(st'.config)
  {
    var arg := argv[i];
    if arg == "-c" && argv[i + 1] in files {
      MergeWellFormed(st.config, files[argv[i + 1]]);
      MergeKeepsNames(st.config, files[argv[i + 1]]);
    } else if StartsWith(arg, "-c.") && arg != "-c" && InlineParam(arg).Some? {
      var p := InlineParam(arg).value;
      WithSectionWellFormed(st.config, p.controller);
      SetItemWellFormed(WithSection(st.config, p.controller), p.controller, p.key, p.value);
    } else if (arg == "-t" || arg == "--timeout") {
      WithSectionWellFormed(st.config, "cpuacct");
    }
  }

  predicate Configures(arg: string)
  {
    arg == "-c" || arg == "-t" || arg == "--timeout" || StartsWith(arg, "-c.")
  }

  /** Only `-c`, `-c.` tokens and `-t` among the options touch the
      configuration; words of the command do not. */
  lemma {:induction false} UnconfiguredStays(argv: seq<string>, i: nat, st: State, files: map<string, Table>)
    requires 1 <= i <= |argv|
    ensures var r := ParseFrom(argv, i, st, files);
      r.Proceed? && (forall j :: i <= j < |argv| - |r.options.cmd| ==> !Configures(argv[j])) ==>
        r.options.config == st.config
    decreases |argv| - i
  {
    if i < |argv| {
      match StepAt(argv, i, st, files)
      case Next(next, st') =>
        UnconfiguredStays(argv, next, st', files);
        CommandAfterOptions(argv, next, st', files);
      case Stop(_) =>
      case Separator(_) =>
    }
  }
}
