/**
  Properties of the whole `mx` command, for every parsed command line and
  every behaviour of the remote collaborators.
 */
module DispatchProperties {
  import opened Lines
  import opened Remote
  import opened Resolver
  import opened Dispatch

  /** How many of the four action flags are set, counted independently of the
      command's own selection list. */
  function FlagCount(o: Options): nat
  {
    (if o.callRun then 1 else 0) + (if o.getRun then 1 else 0)
    + (if o.setRun then 1 else 0) + (if o.infoRun then 1 else 0)
  }

  /** The run of a command line that fails the action selection. */
  const ChooseOneRun: Run := Run([], Aborted(true, [ChooseOne]), false)

  /** The connection opens, the pattern query answers, and it names exactly
      one bean. */
  predicate SingleBean(env: Environment, pattern: string)
  {
    && env.connect.Returned?
    && env.query(env.connect.value, pattern).Returned?
    && |env.query(env.connect.value, pattern).value| == 1
  }

  /** The one bean a pattern selects. */
  function TheBean(env: Environment, pattern: string): Name
    requires SingleBean(env, pattern)
  {
    env.query(env.connect.value, pattern).value[0]
  }

  /** The command fails with the selection usage error, touching nothing
      remote, exactly when the number of action flags set is not one. */
  lemma ChooseOneIffNotExactlyOne(o: Options, env: Environment)
    ensures Mx(o, env) == ChooseOneRun <==> FlagCount(o) != 1
  {
  }

  /** With exactly one flag set, that action runs, and every remote call made
      belongs to it. */
  lemma OnlyChosenActionRuns(o: Options, env: Environment, a: Action)
    requires OnlyChosen(o, a)
    ensures Mx(o, env) == RunAction(a, o, env)
    ensures forall i :: 0 <= i < |Mx(o, env).steps| ==> Serves(Mx(o, env).steps[i], a)
  {
  }

  /** `--call` without `--operation` fails with the usage text before any
      connection. */
  lemma CallNeedsOperation(o: Options, env: Environment)
    requires OnlyChosen(o, Call) && o.operation.None?
    ensures Mx(o, env) == Run([], Aborted(true, [MissingOperation]), false)
  {
  }

  /** `--get` without `--attribute` fails with the usage text before any
      connection; the text is the one about the operation name. */
  lemma GetNeedsAttribute(o: Options, env: Environment)
    requires OnlyChosen(o, Get) && o.attribute.None?
    ensures Mx(o, env) == Run([], Aborted(true, [MissingOperation]), false)
  {
  }

  /** `--set` checks the attribute before the value, both before any
      connection. */
  lemma SetChecksAttributeThenValue(o: Options, env: Environment)
    requires OnlyChosen(o, Set)
    ensures o.attribute.None? ==> Mx(o, env) == Run([], Aborted(true, [MissingAttribute]), false)
    ensures o.attribute.Some? && o.value.None? ==>
              Mx(o, env) == Run([], Aborted(true, [MissingValue]), false)
    ensures o.attribute.Some? && o.value.Some? ==> !(Mx(o, env).exit.Aborted? && Mx(o, env).exit.usage)
  {
  }

  /** `--info` has no parameter to check: it always goes on to connect. */
  lemma InfoAlwaysConnects(o: Options, env: Environment)
    requires OnlyChosen(o, Info)
    ensures |Mx(o, env).steps| >= 1 && Mx(o, env).steps[0] == Connect
    ensures !(Mx(o, env).exit.Aborted? && Mx(o, env).exit.usage)
  {
  }

  /** A pattern that matches no bean or several fails with the resolver's
      message after the query, and no accessor is called, whatever the
      action. */
  lemma UnresolvedBeanFails(o: Options, env: Environment, a: Action)
    requires OnlyChosen(o, a) && HasParameters(a, o)
    requires env.connect.Returned? && env.query(env.connect.value, o.bean).Returned?
    requires |env.query(env.connect.value, o.bean).value| != 1
    ensures var matches := env.query(env.connect.value, o.bean).value;
            Mx(o, env) == Run([Connect, Query(o.bean)],
                              Aborted(false, [Resolve(o.bean, matches).message]), false)
  {
  }

  /** A connection failure ends the command after the connection attempt: the
      call action prints a stack trace and fails without a message, the
      others fail with the exception's text. */
  lemma ConnectionFailure(o: Options, env: Environment, a: Action)
    requires OnlyChosen(o, a) && HasParameters(a, o)
    requires env.connect.Threw?
    ensures a == Call ==> Mx(o, env) == Run([Connect], Aborted(false, []), true)
    ensures a != Call ==>
              Mx(o, env) == Run([Connect], Aborted(false, [env.connect.description]), false)
  {
  }

  /** A failing pattern query (a malformed pattern or a server error) ends the
      command after the query: the call action prints a stack trace and fails
      without a message, the others fail with the exception's text. */
  lemma QueryFailure(o: Options, env: Environment, a: Action)
    requires OnlyChosen(o, a) && HasParameters(a, o)
    requires env.connect.Returned? && env.query(env.connect.value, o.bean).Threw?
    ensures a == Call ==> Mx(o, env) == Run([Connect, Query(o.bean)], Aborted(false, []), true)
    ensures a != Call ==>
              Mx(o, env) == Run([Connect, Query(o.bean)],
                                Aborted(false, [env.query(env.connect.value, o.bean).description]), false)
  {
  }

  /** The step the chosen action's accessor call takes on bean `name`. */
  function AccessStep(o: Options, a: Action, name: Name): Step
    requires HasParameters(a, o)
  {
    match a
    case Call => Invoke(name, o.operation.value, o.arguments)
    case Get => Read(name, o.attribute.value)
    case Set => Write(name, o.attribute.value, o.value.value)
    case Info => Describe(name)
  }

  /** The text of the exception the chosen action's accessor call threw, if it
      threw. */
  function AccessError(env: Environment, o: Options, a: Action, name: Name): Option<string>
    requires env.connect.Returned? && HasParameters(a, o)
  {
    var conn := env.connect.value;
    var thrown := (e: Fallible<string>) => if e.Threw? then Some(e.description) else None;
    match a
    case Call => thrown(env.invoke(conn, name, o.operation.value, o.arguments))
    case Get => thrown(env.read(conn, name, o.attribute.value))
    case Set =>
      (match env.write(conn, name, o.attribute.value, o.value.value)
       case Threw(e) => Some(e)
       case Returned(_) => None)
    case Info => thrown(env.describe(conn, name))
  }

  /** An accessor call that throws ends the command after that call: the call
      action prints a stack trace and fails without a message, the others fail
      with the exception's text. */
  lemma AccessorFailure(o: Options, env: Environment, a: Action)
    requires OnlyChosen(o, a) && HasParameters(a, o) && SingleBean(env, o.bean)
    requires AccessError(env, o, a, TheBean(env, o.bean)).Some?
    ensures var steps := [Connect, Query(o.bean), AccessStep(o, a, TheBean(env, o.bean))];
            && (a == Call ==> Mx(o, env) == Run(steps, Aborted(false, []), true))
            && (a != Call ==>
                  Mx(o, env) == Run(steps, Aborted(false, [AccessError(env, o, a, TheBean(env, o.bean)).value]), false))
  {
  }

  /** `--call` succeeds exactly when the bean resolves and the invocation
      returns; it then invoked the operation with the arguments in their given
      order and printed the result. */
  lemma CallPrintsInvocationResult(o: Options, env: Environment)
    requires OnlyChosen(o, Call) && o.operation.Some?
    ensures Mx(o, env).exit.Completed? <==>
              SingleBean(env, o.bean)
              && env.invoke(env.connect.value, TheBean(env, o.bean), o.operation.value, o.arguments).Returned?
    ensures Mx(o, env).exit.Completed? ==>
              var name := TheBean(env, o.bean);
              && Mx(o, env).steps == [Connect, Query(o.bean), Invoke(name, o.operation.value, o.arguments)]
              && Mx(o, env).exit.output
                 == Printed(env.invoke(env.connect.value, name, o.operation.value, o.arguments).value)
  {
  }

  /** `--get` succeeds exactly when the bean resolves and the read returns; it
      then printed the attribute's value. */
  lemma GetPrintsAttribute(o: Options, env: Environment)
    requires OnlyChosen(o, Get) && o.attribute.Some?
    ensures Mx(o, env).exit.Completed? <==>
              SingleBean(env, o.bean)
              && env.read(env.connect.value, TheBean(env, o.bean), o.attribute.value).Returned?
    ensures Mx(o, env).exit.Completed? ==>
              var name := TheBean(env, o.bean);
              && Mx(o, env).steps == [Connect, Query(o.bean), Read(name, o.attribute.value)]
              && Mx(o, env).exit.output == Printed(env.read(env.connect.value, name, o.attribute.value).value)
  {
  }

  /** `--set` succeeds exactly when the bean resolves and the write returns; it
      then wrote the given value and printed nothing. */
  lemma SetWritesSilently(o: Options, env: Environment)
    requires OnlyChosen(o, Set) && o.attribute.Some? && o.value.Some?
    ensures Mx(o, env).exit.Completed? <==>
              SingleBean(env, o.bean)
              && env.write(env.connect.value, TheBean(env, o.bean), o.attribute.value, o.value.value).Returned?
    ensures Mx(o, env).exit.Completed? ==>
              && Mx(o, env).steps
                 == [Connect, Query(o.bean), Write(TheBean(env, o.bean), o.attribute.value, o.value.value)]
              && Mx(o, env).exit.output == NoOutput
  {
  }

  /** `--info` succeeds exactly when the bean resolves and the description is
      returned; it then printed the description. */
  lemma InfoPrintsDescription(o: Options, env: Environment)
    requires OnlyChosen(o, Info)
    ensures Mx(o, env).exit.Completed? <==>
              SingleBean(env, o.bean) && env.describe(env.connect.value, TheBean(env, o.bean)).Returned?
    ensures Mx(o, env).exit.Completed? ==>
              var name := TheBean(env, o.bean);
              && Mx(o, env).steps == [Connect, Query(o.bean), Describe(name)]
              && Mx(o, env).exit.output == Printed(env.describe(env.connect.value, name).value)
  {
  }
}
