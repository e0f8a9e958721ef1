# tinybox in Dafny

tinybox is a small Python wrapper around the libcgroup command-line tools.
It reads limits from its command line, then runs one command inside a fresh
cgroup: `cgcreate`, then `cgset`, then `cgexec`, then `cgdelete`.

This project models the part of `tinybox.py` that decides which commands run:

- the argument loop of `main`, with the global `configparser` object it fills in;
- the "no controllers" check;
- the four command builders;
- the timeout normalisation of `execute_cmd`;
- the fixed create, set, exec, delete sequence.

`subprocess.call` is replaced by appending the command to a trace. A run of
the wrapper is a list of arguments in, and an exit code plus the trace out.

Modules, one per file:

- `Text` (`text.dfy`): Python's `str.split` on one character, `str.join`,
  `int()` on decimal text and `str()` on integers.
- `Config` (`config.dfy`): the `ConfigParser`, as an ordered table of
  sections, each an ordered list of key/value items. The class
  `ConfigParser` holds the table and updates it in place. Pure functions
  (`WithSection`, `SetItem`, `Merge`) specify each update.
- `Commands` (`commands.dfy`): `cgroup_create`, `cgroup_set`, `cgroup_exec`
  and `cgroup_delete`. The class `Executor` holds the trace. `cgroup_set`
  keeps its nested loops (`SetArguments`, `SectionArguments`), proved against
  the function `SetArgv`.
- `Cli` (`cli.dfy`): the loop of `main`. The function `StepAt` gives one turn
  of the loop and `Parse` gives the whole loop. The method `ParseArgs` runs
  the `while` loop over a `ConfigParser` and is proved equal to `Parse`.
- `Tinybox` (`tinybox.dfy`): the controller check and the command sequence.
  The function `Behaviour` gives the exit code and trace of a run, and the
  method `Run` is proved equal to it. The lemmas here state what a whole run
  does.

Things the environment supplies become parameters:

- `env`: the process id and `$USER`.
- `files`: maps each path that is a regular file to its parsed contents.
- `quote`: stands for `shlex.quote`.

What the code does, which the model follows, where the usage text
(tinybox.py:30-38) or a reader might expect otherwise:

- The four calls of the sequence are unguarded. `execute_cmd` ignores every
  exit status and catches a cgexec timeout, so a command that fails or times
  out is still followed by the rest of the sequence, `cgdelete` included.
  Only an exception that escapes `execute_cmd` stops the run early, and then
  nothing removes the group. `CreateDeletePaired` is about the trace of a run
  in which no call raises.
- `cgexec` runs as one shell string, not as an argument vector.
- `runas_username` starts as `$USER` and is never `None`. So the command
  always runs through `su <user> --preserve-environment -c`, even without `-r`
  (`ExecRunsThroughSu`).
- `cgset` names only the path, not `controllers:path`. Only cgcreate, cgexec
  and cgdelete share the group spec (`PlanTargetsOneGroup`).
- A malformed `-c.` token is skipped, not an error (`InlineStep`).
- The usage text lists `--cgconf` beside `-c`, but the loop only knows `-c`;
  `--cgconf` is an unknown argument and exits 1 (`ExitStep`).
- The wrapper exits 0 after the sequence, whatever the commands returned.
- An empty command still creates and deletes the group; only `cgexec` is
  skipped.
- The loop never reads the words after `--`: a `-p`, `-r`, `-c` or `-t` inside
  the command changes nothing (`Provenance`, `UnconfiguredStays`,
  `CommandAloneExits`).

## Model

| member | source | states |
|---|---|---|
| Text.Split | tinybox.py:109-110 | `s.split(sep)` always gives at least one part, so `kv_tokens[0]` exists |
| Text.JoinSplit | tinybox.py:109-110 | joining the parts of `s.split(sep)` with `sep` gives back `s` |
| Text.SplitTwo | tinybox.py:109-111 | text that splits into exactly two parts is the first part, the separator, then the second part, and neither part holds the separator |
| Text.Join | tinybox.py:44 | defines `sep.join(parts)`: the parts with `sep` between neighbours, `""` for no parts; used for the group spec and the cgexec line at lines 44, 60, 61 and 66 |
| Text.StartsWith | tinybox.py:108 | defines `arg.startswith(prefix)`: the prefix fits in the text and its first characters are the prefix |
| Text.ParseInt | tinybox.py:120 | defines `int(s)` on decimal text: an optional sign, then ASCII digits; anything else is `None`, the `ValueError` case |
| Text.IntToDecimal | tinybox.py:15 | defines `str(n)` for an integer: a `-` for a negative number, then its decimal digits |
| Text.IntToDecimalRoundTrip | tinybox.py:15 | `int(str(n)) == n` for the integer-to-decimal rendering used for the pid |
| Text.ParseIntNeedsDigit | tinybox.py:120 | text without a digit is never an integer, so `-t` followed by such a word fails |
| Config.Names | tinybox.py:142 | defines `cgroup_config.sections()`: the section names in the order they were first added; this list is `controllers` in every command |
| Config.ItemsOf | tinybox.py:51 | defines `config[c]`: the items of section `c`, in the order their keys were first set |
| Config.Get | tinybox.py:52 | defines the value of key `k` among a section's items, `None` when the key is absent |
| Config.Lookup | tinybox.py:52 | defines `config[c][k]`: the value of `k` in section `c`, `None` when the section or the key is missing |
| Config.SetItem | tinybox.py:116 | setting a key leaves the list of sections and their order unchanged |
| Config.WithSection | tinybox.py:114-115 | a missing section is added last and an existing one stays where it is |
| Config.MergeItems | tinybox.py:104 | setting the items of a file section leaves the section list unchanged |
| Config.Merge | tinybox.py:104 | defines `read(path)` of a parsed file: for each file section in order, add the section if absent, then set each of its items |
| Config.Put | tinybox.py:116 | defines the dict assignment `items[k] = v`: an existing key is replaced in place, a new key goes last |
| Config.PutGet | tinybox.py:116 | after `items[k] = v`, key `k` reads `v` and every other key reads as before |
| Config.PutKeys | tinybox.py:116 | a new key goes last, and an existing key keeps its place |
| Config.PutPut | tinybox.py:116 | a second assignment to the same key overwrites the first |
| Config.PutDistinct | tinybox.py:116 | setting a key never makes a key appear twice |
| Config.WithSectionLookup | tinybox.py:114-115 | adding a section changes no existing entry |
| Config.WithSectionWellFormed | tinybox.py:114-115 | adding a section keeps section names and keys unique |
| Config.SetItemLookup | tinybox.py:116 | after `config[c][k] = v`, `(c, k)` reads `v` and every other entry reads as before |
| Config.SetItemOverwrite | tinybox.py:116 | the last `config[c][k] = v` wins |
| Config.SetItemWellFormed | tinybox.py:116 | setting a key keeps section names and keys unique |
| Config.SetItemAt | tinybox.py:116 | setting a key changes the items of section `c` only |
| Config.MergeItemsWellFormed | tinybox.py:104 | reading the items of a file section keeps the table well formed |
| Config.MergeWellFormed | tinybox.py:104 | reading a file keeps section names and keys unique |
| Config.MergeKeepsNames | tinybox.py:104 | after reading a file, the sections that were already there come first, in their old order |
| Config.MergeHasFileSections | tinybox.py:104 | after reading a file, every section of the file is present |
| Config.MergeNames | tinybox.py:104 | after reading a file, the section list is the old one followed by the file's new sections in file order, and nothing else |
| Config.MergeOnlyFileSections | tinybox.py:104 | after reading a file, a section is present exactly when it was there before or the file has it |
| Config.MergeItemsLookup | tinybox.py:104 | a key of the file section reads the file's value, and every other entry reads as before |
| Config.MergeSectionLookup | tinybox.py:104 | reading one file section gives its keys the file's values and changes no other entry |
| Config.MergeLookup | tinybox.py:104 | after reading a file, an entry the file has reads the file's value, and every other entry reads as before |
| Config.LookupItemsOf | tinybox.py:51-52 | `config[c][k]` is the value of `k` among the items of section `c` |
| Config.ItemsOfDistinct | tinybox.py:51 | iterating `config[c]` meets each key once |
| Config.ConfigParser.constructor | tinybox.py:22 | the global parser starts with no section |
| Config.ConfigParser.Sections | tinybox.py:142 | defines `sections()` on the parser object: `Names` of its table |
| Config.ConfigParser.AddSection | tinybox.py:115 | `add_section(c)` appends an empty section `c`, and needs `c` to be absent |
| Config.ConfigParser.Set | tinybox.py:116 | `config[c][k] = v` on an existing section is `SetItem` |
| Config.ConfigParser.Read | tinybox.py:104 | `read(path)` merges the file's sections and items into the table |
| Commands.Render | tinybox.py:52 | defines the parameter word `c + '.' + k + '=' + v` |
| Commands.Assignments | tinybox.py:50-52 | defines the cgset parameters controller-major: those of the first controller's section in key order, then those of the rest |
| Commands.Flags | tinybox.py:52 | defines the words `-r`, `c.k=v` for each parameter, in order |
| Commands.SectionAssignments | tinybox.py:51-52 | one `c.k=v` parameter per item of the section, in key order |
| Commands.NormaliseTimeout | tinybox.py:69 | a zero timeout becomes no timeout, and any other timeout, or none, is kept |
| Commands.GroupSpec | tinybox.py:44 | defines the `-g` operand `','.join(controllers) + ':' + path` |
| Commands.CreateArgv | tinybox.py:44 | defines the cgcreate vector `cgcreate -t <t>:root -a <a>:<a> -g <spec>` |
| Commands.SetArgv | tinybox.py:48-53 | defines the cgset vector: `cgset`, then `-r c.k=v` for each item of each controller's section, then the path |
| Commands.ExecLine | tinybox.py:60-61 | defines the cgexec shell line, with the command handed to `su -c` when a run-as user is given |
| Commands.DeleteArgv | tinybox.py:66 | defines the cgdelete vector `cgdelete -r -g <spec>` |
| Commands.ExecLineSu | tinybox.py:60-61 | with a run-as user, the shell line is `cgexec -g <spec> --sticky su <user> --preserve-environment -c <quoted command>` |
| Commands.FlagsAppend | tinybox.py:50-52 | the `-r` arguments of two parameter lists are those of each list, one after the other |
| Commands.FlagsShape | tinybox.py:52 | each parameter becomes exactly `-r`, then `c.k=v`, in order |
| Commands.AssignmentsAppend | tinybox.py:50-51 | parameters are controller-major: those of a list of controllers are those of its parts, one after the other |
| Commands.EmptySectionContributesNothing | tinybox.py:50-52 | a section without keys, like the `cpuacct` section added by `-t`, adds no `-r` argument to cgset |
| Commands.SetArgvShape | tinybox.py:48-53 | cgset's vector has length 2 + 2·(number of parameters): `cgset`, then `-r c.k=v` for each parameter, then the path |
| Commands.AssignmentsSound | tinybox.py:50-52 | every cgset parameter names a listed controller and holds that entry's value in the configuration |
| Commands.AssignmentsComplete | tinybox.py:50-52 | every entry under a listed controller appears as a cgset parameter |
| Commands.AssignmentsExact | tinybox.py:50-52 | with all sections as controllers, the cgset parameters are exactly the entries of the configuration |
| Commands.GroupSpecInjective | tinybox.py:44 | `','.join(controllers) + ':' + path` determines the controllers and the path when no controller name contains `,` or `:` |
| Commands.Executor.Execute | tinybox.py:68-71 | each call appends exactly one command to the trace, with its timeout normalised |
| Commands.CgroupCreate | tinybox.py:43-45 | appends `cgcreate -t <t>:root -a <a>:<a> -g <controllers>:<path>` |
| Commands.SectionArguments | tinybox.py:51-52 | the inner loop gives the `-r` arguments of one section, in key order |
| Commands.SetArguments | tinybox.py:49-53 | the nested loops build exactly `SetArgv` |
| Commands.CgroupSet | tinybox.py:48-54 | appends the cgset vector built from the configuration object |
| Commands.CgroupExec | tinybox.py:57-62 | appends nothing for an empty command, and otherwise one shell line with the timeout |
| Commands.CgroupDelete | tinybox.py:65-66 | appends `cgdelete -r -g <controllers>:<path>` |
| Cli.DefaultPath | tinybox.py:79 | defines the default path `tbox/task_<pid>`, with the pid in decimal |
| Cli.Initial | tinybox.py:79-81 | defines the loop's start state: the default path, `$USER`, no timeout and an empty configuration |
| Cli.InlineParam | tinybox.py:109-111 | defines the parsing of a `-c.` token: split the rest on `=`, the first part on `.`, and accept only two parts each |
| Cli.ApplyParam | tinybox.py:114-116 | defines an accepted token's effect: add the section if absent, then set the key |
| Cli.StepAt | tinybox.py:83-139 | each turn of the loop either stops, reaches `--` with the command starting after it, or moves forward by one or two arguments without passing the end |
| Cli.StepAdvance | tinybox.py:108-139 | a turn that goes on moves past exactly one argument for a `-c.` token, and past an option and its value for every other option |
| Cli.ParseFrom | tinybox.py:83-141 | defines the rest of the loop from index `i`: stop with an exit code, or finish with the state and the command |
| Cli.Parse | tinybox.py:75-141 | defines the whole loop, from index 1 in the initial state |
| Cli.ParseArgs | tinybox.py:75-141 | the `while` loop over `sys.argv` gives `Parse`, and on success leaves the global configuration equal to the parsed one |
| Cli.ParseOption | tinybox.py:84-139 | one turn of the loop body is `StepAt`, and the configuration object changes only when the loop goes on |
| Cli.EnsureSection | tinybox.py:121-122 | `if c not in config: add_section(c)` is `WithSection` |
| Cli.ApplyInline | tinybox.py:108-116 | a malformed `-c.` token leaves the configuration as it was, and a valid one applies its parameter |
| Cli.InlineParamSound | tinybox.py:109-111 | an accepted `-c.` token reads `-c.<c>.<k>=<v>` with no `=` in `c`, `k`, `v` and no `.` in `c`, `k` |
| Cli.InlineParamComplete | tinybox.py:109-111 | every such token is accepted with exactly that controller, key and value |
| Cli.InlineParamIff | tinybox.py:108-111 | a token is accepted as `(c, k, v)` if and only if it is `-c.<c>.<k>=<v>` with one `=` and one `.` before it |
| Cli.ApplyParamLookup | tinybox.py:114-116 | an accepted token creates its section if absent, sets its value, and changes no other entry |
| Cli.ApplyParamOverwrite | tinybox.py:116 | a later token for the same controller and key overwrites the earlier value in place |
| Cli.ExitStep | tinybox.py:85-137 | `-h` exits 0; a missing value, a non-integer after `-t` or an unknown argument exits 1 |
| Cli.InlineStep | tinybox.py:108-116 | a `-c.` token never ends the loop: a malformed one is skipped and a valid one is applied |
| Cli.TimeoutStep | tinybox.py:117-122 | `-t n` records `n` and ensures a `cpuacct` section exists |
| Cli.SeparatorStep | tinybox.py:132-134 | `--` ends the loop and everything after it is the command |
| Cli.ExitCodes | tinybox.py:83-137 | the loop exits only with 0 or 1, and with 0 only at `-h` or `--help` |
| Cli.CommandIsSuffix | tinybox.py:132-141 | the command is empty or exactly the arguments after a `--` |
| Cli.NoSeparatorNoCommand | tinybox.py:141 | without `--` the command is empty |
| Cli.CommandAfterOptions | tinybox.py:132-141 | the command starts after every word the loop reads as an option |
| Cli.Provenance | tinybox.py:88-131 | path, user and timeout keep their start values or come from the word after a `-p`, `-r` or `-t` among the options, never from the command after `--` |
| Cli.PathProvenance | tinybox.py:88-94 | the path keeps its start value or is the word after a `-p` among the options |
| Cli.UserProvenance | tinybox.py:126-131 | the user keeps its start value or is the word after an `-r` among the options |
| Cli.TimeoutProvenance | tinybox.py:117-125 | the timeout keeps its start value or is the integer after a `-t` among the options |
| Cli.PathStep | tinybox.py:88-94 | one turn changes the path only at `-p`, to the next word, moving on by two |
| Cli.UserStep | tinybox.py:126-131 | one turn changes the user only at `-r`, to the next word, moving on by two |
| Cli.TimeoutStepValue | tinybox.py:117-125 | one turn changes the timeout only at `-t`, to the integer in the next word, moving on by two |
| Cli.Defaults | tinybox.py:79-81 | without `-p` among the options the path is `tbox/task_<pid>`, without `-r` the user is `$USER`, without `-t` there is no timeout, whatever words the command holds |
| Cli.LastPathWins | tinybox.py:88-94 | a `-p v` with no later `-p` among the options sets the path to `v`, whatever words the command holds |
| Cli.ConfigInvariant | tinybox.py:95-125 | the configuration stays well formed, keeps the order of sections already present, and has `cpuacct` whenever a timeout is set |
| Cli.StepKeepsConfig | tinybox.py:95-125 | one turn keeps the configuration well formed, keeps its section order, and keeps `cpuacct` for a timeout |
| Cli.StepKeepsSections | tinybox.py:95-122 | one turn keeps the configuration well formed and keeps the sections already present first, in their order |
| Cli.UnconfiguredStays | tinybox.py:95-122 | only `-c`, `-c.` tokens and `-t` among the options change the configuration; the command's words never do |
| Tinybox.Plan | tinybox.py:148-151 | defines the command sequence: cgcreate, cgset, cgexec unless the command is empty, cgdelete |
| Tinybox.CreateCommand | tinybox.py:148 | defines the cgcreate call, with `runas_username` as both the task and the admin user |
| Tinybox.SetCommand | tinybox.py:149 | defines the cgset call over all sections and the parsed configuration |
| Tinybox.ExecCommands | tinybox.py:150 | defines the cgexec call: none for an empty command, otherwise one shell line through `su` as `runas_username`, with the timeout |
| Tinybox.DeleteCommand | tinybox.py:151 | defines the cgdelete call over all sections and the path |
| Tinybox.Behaviour | tinybox.py:75-151 | defines a run: the parser's exit, exit 1 with no command when no section exists, otherwise exit 0 after the plan |
| Tinybox.Run | tinybox.py:75-151 | `main` with the global configuration and an executor gives the exit code and trace of `Behaviour` |
| Tinybox.PlanCalls | tinybox.py:148-151 | the sequence calls cgcreate once and first, cgdelete once and last, and cgexec once exactly when the command is not empty |
| Tinybox.CreateDeletePaired | tinybox.py:148-151 | in a run in which no call raises, the trace holds as many cgdelete as cgcreate (at most one), cgcreate first and cgdelete last |
| Tinybox.RunExitCodes | tinybox.py:142-146 | exit is 0 or 1; every exit of the argument loop (`-h` included) and exit 1 issue nothing; exit 0 with no command comes from `-h`; after parsing, commands are issued exactly when a section exists |
| Tinybox.NoLimitsNoCommands | tinybox.py:142-146 | a parsed run without `-c`, `-c.` or `-t` among its options exits 1 and issues no command, whatever the command holds |
| Tinybox.CommandAloneExits | tinybox.py:132-146 | `tinybox -- <cmd>` exits 1 and issues nothing, for every command (`sh -c x` included) |
| Tinybox.TimeoutSuffices | tinybox.py:117-146 | a parsed timeout brings `cpuacct`, so the controller check passes and commands are issued |
| Tinybox.PlanTargetsOneGroup | tinybox.py:148-151 | cgcreate, cgexec and cgdelete name the same `controllers:path`, cgset ends with the path, and only cgexec uses the shell and the timeout |
| Tinybox.ExecRunsThroughSu | tinybox.py:150 | cgexec runs only for a non-empty command, always through `su` as the `-r` user or, without `-r` among the options, as `$USER` |
| Tinybox.CgsetCarriesConfiguration | tinybox.py:149 | the cgset of a run carries exactly the parsed entries, controller-major, `2 + 2·n` words long |
| Tinybox.SetCommandExact | tinybox.py:48-54 | the cgset of a well-formed configuration carries exactly its entries |
| Tinybox.TwoInlineParse | tinybox.py:108-141 | two valid `-c.` tokens for different controllers, then `--`, give two sections in order and the rest as the command |
| Tinybox.TwoSectionsBuilt | tinybox.py:114-116 | two tokens for different controllers build one section each, in order |
| Tinybox.TwoSectionsFlags | tinybox.py:50-52 | two one-key sections give `-r c1.k1=v1 -r c2.k2=v2` |
| Tinybox.TwoInlineLimits | tinybox.py:108-151 | `-c.cpu.shares=500 -c.memory.limit_in_bytes=1000000 -- cmd` and any run of that shape exits 0 with the plan for those two limits |

## Left out

- Process execution: `subprocess.call`, the wall-clock timeout and the `TimeoutExpired` handler (tinybox.py:70-73) are foreign I/O. The model records each command in a trace and no exit status: the code ignores every exit status (tinybox.py:71), so the trace needs none.
- The cgcreate, cgset, cgexec and cgdelete tools themselves are foreign programs.
- Exceptions raised while a command runs are not modelled, so the model says nothing about what the wrapper does then. The code has no cleanup for that case.
- `os.getpid`, `os.getuid`, `os.getgid` and `$USER` (tinybox.py:15-18) are the parameter `env`. The uid and gid are unused.
- Log and usage output (`log`, `print_usage`) is not modelled. The error message for a missing `-r` value wrongly mentions `-t`; this only affects the log text.
- The `-c <path>` file: `os.path.isfile` and parsing the file are I/O. The parameter `files` gives the parsed contents of each path that is a regular file. A file that fails to parse, and the `OSError` handler (tinybox.py:105-107), are not modelled. That handler concatenates an integer to a string, so it would itself raise.
- `Config.Merge`: `configparser` behaviour not visible in the code is not modelled. This covers lowercasing of keys, the `DEFAULT` section and its inherited keys, and `%` interpolation. Keys are kept verbatim.
- `Config.WithSection`, `Cli.EnsureSection`, `Cli.ApplyParam`, `Cli.ApplyInline`, `Config.SetItem`, `Commands.SectionAssignments`: the same `configparser` behaviour is left out for `config[c][k] = v` (tinybox.py:116) and the read-back (tinybox.py:51-52). Option names are lowercased on assignment. A value holding a bare `%` raises an uncaught `ValueError`, so the run stops before cgcreate. `%%` and `%(x)s` are interpolated when cgset reads the value (tinybox.py:52); a `%(x)s` naming a missing option passes `set` but raises `InterpolationMissingOptionError` there, after cgcreate was issued, so cgdelete never runs and the group is left behind. A `-c..k=v` token adds a section named `''` but stores the item in `DEFAULT`. A `-c.DEFAULT.k=v` token adds no section, because `DEFAULT` counts as present for `in`, and its key is then inherited by every section. So `tinybox -c.DEFAULT.x=1 -- cmd` exits 1 and issues no command, while the model appends a `DEFAULT` section, exits 0 and runs the four commands. The model stores every value verbatim under the named section.
- `Commands.SectionAssignments`: the value comes from the section's item list, not a lookup by key. The two agree because a section never holds a key twice (`Config.LookupItemsOf`, `Config.ItemsOfDistinct`).
- `Text.ParseInt`: accepts only an optional sign followed by ASCII digits. Python's `int()` also accepts surrounding whitespace, underscores between digits and non-ASCII digits.
- `quote` stands for `shlex.quote` and is left uninterpreted.
- `Cli.Parse`: requires at least one argument, because `sys.argv` always holds the program name.
- The commented-out `shell_script` lines and the commented-out `timeout` wrapper (tinybox.py:46, 55, 59, 63) are dead code.
