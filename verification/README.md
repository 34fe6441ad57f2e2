# mx command: action dispatch and single-bean resolution

A Dafny model of the `mx` command of the SJK JVM toolkit (`MxCmd.java`). The
command works on one JMX MBean. It selects exactly one of four actions from
its flags:

- `--call` invokes an operation;
- `--get` reads an attribute;
- `--set` writes an attribute;
- `--info` describes the bean.

It then checks that action's own parameters. It opens a connection and
resolves the `--bean` pattern to exactly one MBean. Last, it makes the one
MBean-helper call the action stands for, and prints the result (for set,
nothing).

The model is a set of pure functions:

- `Dispatch.Mx` maps the parsed command line (`Options`) and the answers of
  the remote collaborators (`Environment`) to a `Run`. A `Run` holds the
  collaborator calls made, in order, how the command exited, and whether a
  stack trace was printed.
- Failing the command is an early return of an `Aborted` exit, with or without
  the usage text. Nothing after it runs.
- `Resolver.Resolve` turns the names a pattern matched into the single bean, a
  "not found" message or an "ambiguous" message.

Files:

- `lines.dfy`: newline-joined text and an independent line splitter, with the
  round trip between them.
- `remote.dfy`: the collaborators' interface, the object-name and match-set
  types, and the recorded calls (`Step`).
- `resolver.dfy`: single-bean resolution.
- `dispatch.dfy`: action selection, parameter checks, exception handling and
  the whole command.
- `dispatch_properties.dfy`: end-to-end properties of the command.

Modelling choices:

- `SJK.fail` and `SJK.failAndPrintUsage` (`SJK.java` is not part of this
  model) are taken to end the command with an error that the command's
  `catch (Exception e)` blocks do not intercept. So a resolver failure on the
  call path prints no stack trace, and `MX.run`'s own handler is never
  reached. An `Aborted(usage, messages)` exit records the message arguments
  that were passed.
- The object-name grammar admits no newline in a domain, key or value. So a
  printed object name (`Name`) is a single line. This lets the
  ambiguous-selection message be read back line by line.
- The match set is a duplicate-free sequence in the set's iteration order.
- A thrown exception is recorded by its `toString()` text.
- `--get` without an attribute reports "MBean operation name is missing": the
  message names the operation although the missing parameter is the
  attribute. The model keeps this message.
- The code's "not found" message is `MBean not found: <pattern>` and its
  header is spelled "Ambigous MBean selection". Both are kept verbatim.
- On an exception the code's call action prints the stack trace and then fails
  with no message at all. The model keeps this. It does not add the short
  message that the other actions give.

## Model

| member | source | states |
|---|---|---|
| Lines.SplitJoin | sjk-core/src/main/java/org/gridkit/jvmtool/cmd/MxCmd.java:93-97 | reading the header plus the appended "\n"+name text back line by line gives the header, then every name in order |
| Resolver.Resolve | sjk-core/src/main/java/org/gridkit/jvmtool/cmd/MxCmd.java:89-99 | resolves iff exactly one name matched, and then to that name; no match gives "MBean not found: " + pattern; several give a message whose lines are the header and then exactly the matches |
| Resolver.AppendNames | sjk-core/src/main/java/org/gridkit/jvmtool/cmd/MxCmd.java:93-96 | the StringBuilder loop builds exactly the newline-prefixed list of all matches |
| Resolver.AmbiguousListsEachOnce | sjk-core/src/main/java/org/gridkit/jvmtool/cmd/MxCmd.java:92-97 | the ambiguous message lists every matched name exactly once and nothing else |
| Dispatch.Selected | sjk-core/src/main/java/org/gridkit/jvmtool/cmd/MxCmd.java:64-76 | the action list holds exactly the actions whose flags are set, with no repeats; it has one element iff exactly one flag is set, and then it is that action |
| Dispatch.Prepare | sjk-core/src/main/java/org/gridkit/jvmtool/cmd/MxCmd.java:116-169 | a request is produced iff the action's parameters are present, carrying those parameters; set rejects a missing attribute before a missing value; call and get report "MBean operation name is missing" |
| Dispatch.Caught | sjk-core/src/main/java/org/gridkit/jvmtool/cmd/MxCmd.java:124-149 | an exception ends the action without usage text; only the call action prints a stack trace and reports no message, the others report the exception text |
| Dispatch.Access | sjk-core/src/main/java/org/gridkit/jvmtool/cmd/MxCmd.java:121-122 | the accessor call made belongs to the request's action and carries the bean and the request's own parameters; it succeeds iff that accessor returned; set then yields no output, the others print the accessor's answer; a thrown exception's text is passed on |
| Dispatch.Execute | sjk-core/src/main/java/org/gridkit/jvmtool/cmd/MxCmd.java:142-149 | the calls follow connect, query, one accessor call; all of them belong to the action; completion means all three were made |
| Dispatch.RunAction | sjk-core/src/main/java/org/gridkit/jvmtool/cmd/MxCmd.java:162-177 | a usage failure happens iff a required parameter is missing, and then nothing remote is called |
| Dispatch.Mx | sjk-core/src/main/java/org/gridkit/jvmtool/cmd/MxCmd.java:62-84 | every run follows the connect/query/access protocol; a usage failure calls nothing remote; a stack trace only on the call action; completion means the accessor was called |
| DispatchProperties.ChooseOneIffNotExactlyOne | sjk-core/src/main/java/org/gridkit/jvmtool/cmd/MxCmd.java:64-79 | the run is the "You should choose one of --info, --get, --set, --call" usage failure with no remote call iff the number of set flags is not one |
| DispatchProperties.OnlyChosenActionRuns | sjk-core/src/main/java/org/gridkit/jvmtool/cmd/MxCmd.java:65-80 | with a single flag set, exactly that action runs and every remote call belongs to it |
| DispatchProperties.CallNeedsOperation | sjk-core/src/main/java/org/gridkit/jvmtool/cmd/MxCmd.java:116-120 | call without operation fails with the usage text before any connection |
| DispatchProperties.GetNeedsAttribute | sjk-core/src/main/java/org/gridkit/jvmtool/cmd/MxCmd.java:139-143 | get without attribute fails with "MBean operation name is missing" before any connection |
| DispatchProperties.SetChecksAttributeThenValue | sjk-core/src/main/java/org/gridkit/jvmtool/cmd/MxCmd.java:164-171 | set reports the missing attribute even when the value is missing too, then the missing value, both before connecting; with both present there is no usage failure |
| DispatchProperties.InfoAlwaysConnects | sjk-core/src/main/java/org/gridkit/jvmtool/cmd/MxCmd.java:186-191 | info alone always goes on to connect and never fails with usage text |
| DispatchProperties.UnresolvedBeanFails | sjk-core/src/main/java/org/gridkit/jvmtool/cmd/MxCmd.java:86-98 | zero or several matches end every action after the query with the resolver's message, without an accessor call or stack trace |
| DispatchProperties.ConnectionFailure | sjk-core/src/main/java/org/gridkit/jvmtool/cmd/MxCmd.java:119-149 | a failed connection ends the command after the attempt; call prints a stack trace with no message, the others report the exception text |
| DispatchProperties.QueryFailure | sjk-core/src/main/java/org/gridkit/jvmtool/cmd/MxCmd.java:120-149 | a pattern query that throws ends the command after the query; call prints a stack trace with no message, the others report the exception text |
| DispatchProperties.AccessorFailure | sjk-core/src/main/java/org/gridkit/jvmtool/cmd/MxCmd.java:122-194 | an accessor call that throws ends the command after that call; call prints a stack trace with no message, the others report the exception text |
| DispatchProperties.CallPrintsInvocationResult | sjk-core/src/main/java/org/gridkit/jvmtool/cmd/MxCmd.java:119-122 | call completes iff the bean resolves and the invocation returns; it then invoked the operation with the arguments in order and printed the result |
| DispatchProperties.GetPrintsAttribute | sjk-core/src/main/java/org/gridkit/jvmtool/cmd/MxCmd.java:142-145 | get completes iff the bean resolves and the read returns; it then printed the value read |
| DispatchProperties.SetWritesSilently | sjk-core/src/main/java/org/gridkit/jvmtool/cmd/MxCmd.java:170-173 | set completes iff the bean resolves and the write returns; it then wrote the given value and printed nothing |
| DispatchProperties.InfoPrintsDescription | sjk-core/src/main/java/org/gridkit/jvmtool/cmd/MxCmd.java:188-191 | info completes iff the bean resolves and the description returns; it then printed the description |

## Left out

- Collaborators ending the command themselves. The model assumes every collaborator either returns or throws an `Exception`. A collaborator that calls `SJK.fail` or `SJK.failAndPrintUsage` itself is not modelled. For example, `getMServer` may do this when no target process is given; `JmxConnectionInfo` is not part of this model. Such a call would end the command at that step with no stack trace, possibly with the usage text. So the usage-failure claims of `Dispatch.RunAction`, `Dispatch.Mx`, `DispatchProperties.InfoAlwaysConnects` and `DispatchProperties.SetChecksAttributeThenValue` hold only under this assumption.
- JMX connection setup (`JmxConnectionInfo.getMServer`): network I/O and authentication. Its outcome is the `connect` field of `Environment`.
- Object-name parsing and pattern matching (`new ObjectName`, `queryNames`). These follow the JMX object-name grammar and run on the MBean server. One `query` answer stands for both: the match set, or the exception either one threw.
- `MBeanHelper` `invoke`/`get`/`set`/`describe` (value coercion and the remote calls). `MBeanHelper` is not part of this model. Each is an opaque function of the environment, so the get-after-set round trip through a real accessor is not stated.
- JCommander argument parsing, including the `required` check on `--bean`. The model starts from the parsed `Options`.
- Process termination inside `SJK.fail`, and the text of the printed stack trace. Only the fact that a trace was printed is recorded.
- `System.out.println`'s line terminator and the `toString()` of returned values: output is the printed text of the value.
- The catch block of `MX.run` (lines 81-83). Every nested action catches `Exception` itself, so it never runs.
- `getCommandName` and `newCommand` (lines 20-28): command registration only.
