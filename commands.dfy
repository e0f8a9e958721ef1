/** The command builders of the wrapper (`cgroup_create`, `cgroup_set`,
    `cgroup_exec`, `cgroup_delete`) and `execute_cmd`, which here records
    each command in a trace instead of spawning it. */
module Commands {
  import opened Text
  import opened Config

  /** What `subprocess.call` receives: an argument vector, or one string for the shell. */
  datatype CommandLine = Argv(args: seq<string>) | ShellLine(line: string)

  /** One call `subprocess.call(cmd, shell = shell, timeout = timeout)`. */
  datatype Command = Command(line: CommandLine, shell: bool, timeout: Option<int>)

  /** One `-r` parameter of `cgset`: `controller.key=value`. */
  datatype Assignment = Assignment(controller: string, key: string, value: string)

  /** `','.join(controllers) + ':' + path`, the `-g` operand of cgcreate, cgexec and cgdelete. */
  function GroupSpec(controllers: seq<string>, path: string): string
  {
    Join(controllers, ",") + ":" + path
  }

  function CreateArgv(controllers: seq<string>, path: string, tUser: string, aUser: string): seq<string>
  {
    ["cgcreate", "-t", tUser + ":root", "-a", aUser + ":" + aUser, "-g", GroupSpec(controllers, path)]
  }

  function Render(a: Assignment): string
  {
    a.controller + "." + a.key + "=" + a.value
  }

  /** The parameters one section contributes, in the order of its keys. */
  function SectionAssignments(c: string, items: seq<Item>): (r: seq<Assignment>)
    ensures |r| == |items|
    ensures forall j :: 0 <= j < |items| ==> r[j] == Assignment(c, items[j].key, items[j].value)
  {
    if items == [] then []
    else [Assignment(c, items[0].key, items[0].value)] + SectionAssignments(c, items[1..])
  }

  /** All parameters, controller by controller. */
  function Assignments(controllers: seq<string>, t: Table): seq<Assignment>
    requires forall c :: c in controllers ==> c in Names(t)
  {
    if controllers == [] then []
    else SectionAssignments(controllers[0], ItemsOf(t, controllers[0])) + Assignments(controllers[1..], t)
  }

  function Flags(a: seq<Assignment>): seq<string>
  {
    if a == [] then [] else ["-r", Render(a[0])] + Flags(a[1..])
  }

  function SetArgv(controllers: seq<string>, t: Table, path: string): seq<string>
    requires forall c :: c in controllers ==> c in Names(t)
  {
    ["cgset"] + Flags(Assignments(controllers, t)) + [path]
  }

  /** The shell line of `cgroup_exec`; with `runas` the command runs through
      `su runas --preserve-environment -c <quoted command>`. `quote` stands
      for `shlex.quote`. */
  function ExecLine(controllers: seq<string>, path: string, cmd: seq<string>, runas: Option<string>,
                    quote: string -> string): string
  {
    var wrapped := if runas.Some? then ["su", runas.value, "--preserve-environment", "-c", quote(Join(cmd, " "))] else cmd;
    "cgexec -g " + GroupSpec(controllers, path) + " --sticky " + Join(wrapped, " ")
  }

  /** With a run-as user the command is handed, quoted as one word, to `su -c`. */
  lemma ExecLineSu(controllers: seq<string>, path: string, cmd: seq<string>, user: string,
                   quote: string -> string)
    ensures ExecLine(controllers, path, cmd, Some(user), quote)
         == "cgexec -g " + GroupSpec(controllers, path) + " --sticky su " + user
            + " --preserve-environment -c " + quote(Join(cmd, " "))
  {
    var q := quote(Join(cmd, " "));
    SuWords(user, q);
    var g := "cgexec -g " + GroupSpec(controllers, path);
    assert g + " --sticky " + ("su " + user + " --preserve-environment -c " + q)
        == g + " --sticky su " + user + " --preserve-environment -c " + q;
  }

  lemma SuWords(user: string, q: string)
    ensures Join(["su", user, "--preserve-environment", "-c", q], " ")
         == "su " + user + " --preserve-environment -c " + q
  {
    var w := ["su", user, "--preserve-environment", "-c", q];
    SuOptions(q);
    assert w[1..] == [user] + w[2..];
    JoinCons(user, w[2..], " ");
    assert w == ["su"] + w[1..];
    JoinCons("su", w[1..], " ");
    var opts := "--preserve-environment -c " + q;
    assert "su" + " " + (user + " " + opts) == "su " + user + (" " + opts);
    assert " " + opts == " --preserve-environment -c " + q;
  }

  lemma SuOptions(q: string)
    ensures Join(["--preserve-environment", "-c", q], " ") == "--preserve-environment -c " + q
  {
    var w := ["--preserve-environment", "-c", q];
    assert w[2..] == [q];
    assert w[1..] == ["-c"] + w[2..];
    JoinCons("-c", w[2..], " ");
    assert w == ["--preserve-environment"] + w[1..];
    JoinCons("--preserve-environment", w[1..], " ");
  }

  lemma JoinCons(first: string, rest: seq<string>, sep: string)
    requires rest != []
    ensures Join([first] + rest, sep) == first + sep + Join(rest, sep)
  {
    assert ([first] + rest)[1..] == rest;
  }

  function DeleteArgv(controllers: seq<string>, path: string): seq<string>
  {
    ["cgdelete", "-r", "-g", GroupSpec(controllers, path)]
  }

  /** `if timeout == 0: timeout = None`. */
  function NormaliseTimeout(timeout: Option<int>): (r: Option<int>)
    ensures r.Some? ==> r.value != 0 && r == timeout
    ensures timeout.Some? && timeout.value != 0 ==> r == timeout
  {
    if timeout == Some(0) then None else timeout
  }

  // ---------------------------------------------------------------- cgset

  lemma {:induction false} FlagsAppend(a: seq<Assignment>, b: seq<Assignment>)
    ensures Flags(a + b) == Flags(a) + Flags(b)
  {
    if a == [] {
      assert a + b == b;
    } else {
      assert (a + b)[0] == a[0] && (a + b)[1..] == a[1..] + b;
      FlagsAppend(a[1..], b);
    }
  }

  /** Every parameter is preceded by its own `-r`. */
  lemma {:induction false} FlagsShape(a: seq<Assignment>)
    ensures |Flags(a)| == 2 * |a|
    ensures forall j :: 0 <= j < |a| ==> Flags(a)[2 * j] == "-r" && Flags(a)[2 * j + 1] == Render(a[j])
  {
    if a != [] {
      FlagsShape(a[1..]);
      forall j | 1 <= j < |a| ensures Flags(a)[2 * j] == "-r" && Flags(a)[2 * j + 1] == Render(a[j]) {
        assert Flags(a)[2 * j] == Flags(a[1..])[2 * (j - 1)];
        assert Flags(a)[2 * j + 1] == Flags(a[1..])[2 * (j - 1) + 1];
      }
    }
  }

  /** Controller-major: the parameters of a list of controllers are those of
      its parts, one after the other. */
  lemma {:induction false} AssignmentsAppend(c1: seq<string>, c2: seq<string>, t: Table)
    requires forall c :: c in c1 + c2 ==> c in Names(t)
    ensures Assignments(c1 + c2, t) == Assignments(c1, t) + Assignments(c2, t)
  {
    if c1 == [] {
      assert c1 + c2 == c2;
    } else {
      assert (c1 + c2)[0] == c1[0] && (c1 + c2)[1..] == c1[1..] + c2;
      AssignmentsAppend(c1[1..], c2, t);
    }
  }

  /** A section without keys, such as the `cpuacct` section `-t` adds,
      contributes no `-r` parameter. */
  lemma EmptySectionContributesNothing(c1: seq<string>, c: string, c2: seq<string>, t: Table)
    requires forall x :: x in c1 ==> x in Names(t)
    requires forall x :: x in c2 ==> x in Names(t)
    requires c in Names(t) && ItemsOf(t, c) == []
    ensures Assignments(c1 + [c] + c2, t) == Assignments(c1 + c2, t)
  {
    assert Assignments([c], t) == SectionAssignments(c, ItemsOf(t, c)) + Assignments([], t);
    AssignmentsAppend([c], c2, t);
    AssignmentsAppend(c1, [c] + c2, t);
    assert c1 + [c] + c2 == c1 + ([c] + c2);
    AssignmentsAppend(c1, c2, t);
  }

  /** The argument vector of cgset: `cgset`, then `-r c.k=v` for each key of
      each controller, then the path. */
  lemma SetArgvShape(controllers: seq<string>, t: Table, path: string)
    requires forall c :: c in controllers ==> c in Names(t)
    ensures var args, a := SetArgv(controllers, t, path), Assignments(controllers, t);
      && |args| == 2 + 2 * |a|
      && args[0] == "cgset" && args[|args| - 1] == path
      && forall j :: 0 <= j < |a| ==> args[2 * j + 1] == "-r" && args[2 * j + 2] == Render(a[j])
  {
    var a := Assignments(controllers, t);
    FlagsShape(a);
    var args := SetArgv(controllers, t, path);
    forall j | 0 <= j < |a| ensures args[2 * j + 1] == "-r" && args[2 * j + 2] == Render(a[j]) {
      assert args[2 * j + 1] == Flags(a)[2 * j];
      assert args[2 * j + 2] == Flags(a)[2 * j + 1];
    }
  }

  /** Every `-r` parameter of cgset is an entry of the configuration under one
      of the controllers. */
  lemma {:induction false} AssignmentsSound(controllers: seq<string>, t: Table)
    requires WellFormed(t)
    requires forall c :: c in controllers ==> c in Names(t)
    ensures forall a :: a in Assignments(controllers, t) ==>
      a.controller in controllers && Lookup(t, a.controller, a.key) == Some(a.value)
  {
    if controllers != [] {
      var c := controllers[0];
      var items := ItemsOf(t, c);
      AssignmentsSound(controllers[1..], t);
      ItemsOfDistinct(t, c);
      forall a | a in SectionAssignments(c, items)
        ensures a.controller in controllers && Lookup(t, a.controller, a.key) == Some(a.value)
      {
        var j :| 0 <= j < |items| && SectionAssignments(c, items)[j] == a;
        GetItem(items, j);
        LookupItemsOf(t, c, a.key);
      }
    }
  }

  /** Every entry of the configuration under one of the controllers is a `-r`
      parameter of cgset. */
  lemma {:induction false} AssignmentsComplete(controllers: seq<string>, t: Table, c: string, k: string)
    requires forall x :: x in controllers ==> x in Names(t)
    requires c in controllers && Lookup(t, c, k).Some?
    ensures Assignment(c, k, Lookup(t, c, k).value) in Assignments(controllers, t)
  {
    if controllers[0] == c {
      LookupItemsOf(t, c, k);
      var items := ItemsOf(t, c);
      GetSound(items, k);
      var j :| 0 <= j < |items| && items[j] == Item(k, Lookup(t, c, k).value);
      assert SectionAssignments(c, items)[j] == Assignment(c, k, Lookup(t, c, k).value);
    } else {
      AssignmentsComplete(controllers[1..], t, c, k);
    }
  }

  /** With every section as a controller, the parameters of cgset are
      exactly the entries of the configuration. */
  lemma AssignmentsExact(t: Table)
    requires WellFormed(t)
    ensures forall a :: a in Assignments(Names(t), t) ==> Lookup(t, a.controller, a.key) == Some(a.value)
    ensures forall c, k :: Lookup(t, c, k).Some? ==> Assignment(c, k, Lookup(t, c, k).value) in Assignments(Names(t), t)
  {
    AssignmentsSound(Names(t), t);
    forall c, k | Lookup(t, c, k).Some?
      ensures Assignment(c, k, Lookup(t, c, k).value) in Assignments(Names(t), t)
    {
      if c !in Names(t) {
        LookupAbsent(t, c, k);
      }
      AssignmentsComplete(Names(t), t, c, k);
    }
  }

  // ---------------------------------------------------------------- group spec

  lemma {:induction false} JoinPrefixColon(s1: string, p1: string, s2: string, p2: string)
    requires ':' !in s1 && ':' !in s2
    requires s1 + ":" + p1 == s2 + ":" + p2
    ensures s1 == s2 && p1 == p2
  {
    SplitAtFirst(s1, ':', p1);
    SplitAtFirst(s2, ':', p2);
    assert ([s1] + Split(p1, ':'))[0] == s1;
    assert ([s2] + Split(p2, ':'))[0] == s2;
    assert p1 == (s1 + ":" + p1)[|s1| + 1..];
    assert p2 == (s2 + ":" + p2)[|s2| + 1..];
  }

  /** The `-g` operand determines the controllers and the path, as long as no
      controller name holds a `,` or a `:`. */
  lemma GroupSpecInjective(c1: seq<string>, p1: string, c2: seq<string>, p2: string)
    requires |c1| >= 1 && |c2| >= 1
    requires forall c :: c in c1 + c2 ==> ',' !in c && ':' !in c
    requires GroupSpec(c1, p1) == GroupSpec(c2, p2)
    ensures c1 == c2 && p1 == p2
  {
    assert forall c :: c in c1 ==> c in c1 + c2;
    assert forall c :: c in c2 ==> c in c1 + c2;
    JoinFree(c1, ",", ':');
    JoinFree(c2, ",", ':');
    JoinPrefixColon(Join(c1, ","), p1, Join(c2, ","), p2);
    SplitJoin(c1, ',');
    SplitJoin(c2, ',');
  }

  // ---------------------------------------------------------------- execution

  /** Stands for `execute_cmd`: instead of spawning the command it appends it
      to `trace`, after turning a zero timeout into none. */
  class Executor {
    var trace: seq<Command>

    constructor ()
      ensures trace == []
    {
      trace := [];
    }

    method Execute(line: CommandLine, shell: bool, timeout: Option<int>)
      modifies this
      ensures trace == old(trace) + [Command(line, shell, NormaliseTimeout(timeout))]
    {
      var t := timeout;
      if t == Some(0) {
        t := None;
      }
      trace := trace + [Command(line, shell, t)];
    }
  }

  method CgroupCreate(ex: Executor, controllers: seq<string>, path: string, tUser: string, aUser: string)
    modifies ex
    ensures ex.trace == old(ex.trace) + [Command(Argv(CreateArgv(controllers, path, tUser, aUser)), false, None)]
  {
    var cmd := ["cgcreate", "-t", tUser + ":root", "-a", aUser + ":" + aUser, "-g", Join(controllers, ",") + ":" + path];
    ex.Execute(Argv(cmd), false, None);
  }

  lemma SectionFlagsStep(c: string, items: seq<Item>, j: nat)
    requires j < |items|
    ensures Flags(SectionAssignments(c, items[..j + 1])) ==
      Flags(SectionAssignments(c, items[..j])) + ["-r", c + "." + items[j].key + "=" + items[j].value]
  {
    var a := Assignment(c, items[j].key, items[j].value);
    assert items[..j + 1] == items[..j] + [items[j]];
    assert SectionAssignments(c, items[..j + 1]) == SectionAssignments(c, items[..j]) + [a];
    FlagsAppend(SectionAssignments(c, items[..j]), [a]);
  }

  lemma ControllerFlagsStep(controllers: seq<string>, t: Table, i: nat)
    requires i < |controllers|
    requires forall c :: c in controllers ==> c in Names(t)
    ensures forall c :: c in controllers[..i + 1] ==> c in Names(t)
    ensures Flags(Assignments(controllers[..i + 1], t)) ==
      Flags(Assignments(controllers[..i], t)) + Flags(SectionAssignments(controllers[i], ItemsOf(t, controllers[i])))
  {
    var c := controllers[i];
    assert controllers[..i + 1] == controllers[..i] + [c];
    AssignmentsAppend(controllers[..i], [c], t);
    assert Assignments([c], t) == SectionAssignments(c, ItemsOf(t, c));
    FlagsAppend(Assignments(controllers[..i], t), SectionAssignments(c, ItemsOf(t, c)));
  }

  /** The nested loops of `cgroup_set` that accumulate its arguments. */
  method SetArguments(controllers: seq<string>, t: Table, path: string) returns (args: seq<string>)
    requires forall c :: c in controllers ==> c in Names(t)
    ensures args == SetArgv(controllers, t, path)
  {
    args := [];
    for i := 0 to |controllers|
      invariant forall c :: c in controllers[..i] ==> c in Names(t)
      invariant args == Flags(Assignments(controllers[..i], t))
    {
      var flags := SectionArguments(controllers[i], ItemsOf(t, controllers[i]));
      args := args + flags;
      ControllerFlagsStep(controllers, t, i);
    }
    assert controllers[..|controllers|] == controllers;
    args := ["cgset"] + args + [path];
  }

  /** The inner loop: `-r c.k=v` for each item of one section. */
  method SectionArguments(c: string, items: seq<Item>) returns (flags: seq<string>)
    ensures flags == Flags(SectionAssignments(c, items))
  {
    flags := [];
    for j := 0 to |items|
      invariant flags == Flags(SectionAssignments(c, items[..j]))
    {
      flags := flags + ["-r", c + "." + items[j].key + "=" + items[j].value];
      SectionFlagsStep(c, items, j);
    }
    assert items[..|items|] == items;
  }

  method CgroupSet(ex: Executor, controllers: seq<string>, path: string, config: ConfigParser)
    requires forall c :: c in controllers ==> c in Names(config.table)
    modifies ex
    ensures ex.trace == old(ex.trace) + [Command(Argv(SetArgv(controllers, config.table, path)), false, None)]
  {
    var args := SetArguments(controllers, config.table, path);
    ex.Execute(Argv(args), false, None);
  }

  /** An empty command is skipped; otherwise one shell line runs with the timeout. */
  method CgroupExec(ex: Executor, controllers: seq<string>, path: string, cmd: seq<string>,
                    runas: Option<string>, timeout: Option<int>, quote: string -> string)
    modifies ex
    ensures ex.trace == old(ex.trace) +
      if cmd == [] then [] else [Command(ShellLine(ExecLine(controllers, path, cmd, runas, quote)), true, NormaliseTimeout(timeout))]
  {
    if cmd == [] {
      return;
    }
    var wrapped := cmd;
    if runas.Some? {
      wrapped := ["su", runas.value, "--preserve-environment", "-c", quote(Join(cmd, " "))];
    }
    var line := "cgexec -g " + Join(controllers, ",") + ":" + path + " --sticky " + Join(wrapped, " ");
    assert line == ExecLine(controllers, path, cmd, runas, quote);
    ex.Execute(ShellLine(line), true, timeout);
  }

  method CgroupDelete(ex: Executor, controllers: seq<string>, path: string)
    modifies ex
    ensures ex.trace == old(ex.trace) + [Command(Argv(DeleteArgv(controllers, path)), false, None)]
  {
    ex.Execute(Argv(["cgdelete", "-r", "-g", Join(controllers, ",") + ":" + path]), false, None);
  }
}
