/**
  The `mx` command: choose exactly one of the four actions from the parsed
  flags, check that action's own parameters, then connect, resolve the bean
  and make the one accessor call the action stands for.

  Every way the command can end is a `Run`: the collaborator calls it made, in
  order, and how it exited. Ending the command with a failure is an early
  return of an `Aborted` exit, after which nothing else happens.
 */
module Dispatch {
  import opened Lines
  import opened Remote
  import opened Resolver

  /** Usage error when not exactly one action flag is set. */
  const ChooseOne: string := "You should choose one of --info, --get, --set, --call"
  /** Usage error of `--call` without `--operation`, and also of `--get`
      without `--attribute` (the command reuses this text there). */
  const MissingOperation: string := "MBean operation name is missing"
  /** Usage error of `--set` without `--attribute`. */
  const MissingAttribute: string := "MBean attribute name is missing"
  /** Usage error of `--set` without `--value`. */
  const MissingValue: string := "Value is required"

  /** The command line once parsed: the bean pattern, the attribute shared by
      get and set, and each action's flag with its own parameters. */
  datatype Options = Options(
    bean: string,
    attribute: Option<string>,
    callRun: bool, operation: Option<string>, arguments: seq<string>,
    getRun: bool,
    setRun: bool, value: Option<string>,
    infoRun: bool)

  /** The four actions: invoke an operation, read an attribute, write an
      attribute, describe the bean. */
  datatype Action = Call | Get | Set | Info

  /** The flag that selects `a` is set. */
  predicate Chosen(o: Options, a: Action)
  {
    match a
    case Call => o.callRun
    case Get => o.getRun
    case Set => o.setRun
    case Info => o.infoRun
  }

  /** `a` is the one and only action whose flag is set. */
  predicate OnlyChosen(o: Options, a: Action)
  {
    Chosen(o, a) && forall b :: b != a ==> !Chosen(o, b)
  }

  /** The actions whose flags are set, collected in the order call, get, set,
      info. */
  function Selected(o: Options): (actions: seq<Action>)
    ensures forall a :: a in actions <==> Chosen(o, a)
    ensures Distinct(actions)
    ensures |actions| == 1 <==> exists a :: OnlyChosen(o, a)
    ensures forall a :: OnlyChosen(o, a) ==> actions == [a]
  {
    var actions :=
      (if o.callRun then [Call] else [])
      + (if o.getRun then [Get] else [])
      + (if o.setRun then [Set] else [])
      + (if o.infoRun then [Info] else []);
    assert |actions| == 1 ==> OnlyChosen(o, actions[0]);
    assert forall a :: OnlyChosen(o, a) ==>
      && Chosen(o, Call) == (a == Call) && Chosen(o, Get) == (a == Get)
      && Chosen(o, Set) == (a == Set) && Chosen(o, Info) == (a == Info);
    actions
  }

  /** The accessor call an action asks for, carrying only its own arguments. */
  datatype Request =
    | InvokeOp(operation: string, arguments: seq<string>)
    | ReadAttr(attribute: string)
    | WriteAttr(attribute: string, value: string)
    | DescribeBean
  {
    /** The action this request belongs to. */
    function ActionOf(): Action
    {
      match this
      case InvokeOp(_, _) => Call
      case ReadAttr(_) => Get
      case WriteAttr(_, _) => Set
      case DescribeBean => Info
    }
  }

  /** Outcome of an action's parameter check. */
  datatype Prepared = Ready(request: Request) | Rejected(message: string)

  /** An action's parameters are all present. */
  predicate HasParameters(a: Action, o: Options)
  {
    match a
    case Call => o.operation.Some?
    case Get => o.attribute.Some?
    case Set => o.attribute.Some? && o.value.Some?
    case Info => true
  }

  /** Checks the action's required parameters in the command's order (for set:
      the attribute first, then the value) and turns them into a request. */
  function Prepare(a: Action, o: Options): (p: Prepared)
    ensures p.Ready? <==> HasParameters(a, o)
    ensures p.Ready? ==> p.request.ActionOf() == a
    ensures p.Ready? && a == Call ==> p.request == InvokeOp(o.operation.value, o.arguments)
    ensures p.Ready? && a == Get ==> p.request == ReadAttr(o.attribute.value)
    ensures p.Ready? && a == Set ==> p.request == WriteAttr(o.attribute.value, o.value.value)
    ensures a == Set && o.attribute.None? ==> p == Rejected(MissingAttribute)
    ensures a == Set && o.attribute.Some? && o.value.None? ==> p == Rejected(MissingValue)
    ensures a in {Call, Get} && p.Rejected? ==> p.message == MissingOperation
  {
    match a
    case Call =>
      if o.operation.None? then Rejected(MissingOperation)
      else Ready(InvokeOp(o.operation.value, o.arguments))
    case Get =>
      if o.attribute.None? then Rejected(MissingOperation)
      else Ready(ReadAttr(o.attribute.value))
    case Set =>
      if o.attribute.None? then Rejected(MissingAttribute)
      else if o.value.None? then Rejected(MissingValue)
      else Ready(WriteAttr(o.attribute.value, o.value.value))
    case Info =>
      Ready(DescribeBean)
  }

  /** What the command printed on success. */
  datatype Output = Printed(text: string) | NoOutput

  /** How the command ended: failed, with or without the usage text and with
      the failure messages it reported, or completed with its output. */
  datatype Exit =
    | Aborted(usage: bool, messages: seq<string>)
    | Completed(output: Output)

  /** One invocation: the collaborator calls made, the exit, and whether a
      stack trace was printed. */
  datatype Run = Run(steps: seq<Step>, exit: Exit, stackTrace: bool)

  /** `steps` follows the command's protocol: connect, query the pattern, then
      at most one accessor call, each only if the previous one happened. */
  predicate Protocol(steps: seq<Step>, pattern: string)
  {
    && |steps| <= 3
    && (|steps| >= 1 ==> steps[0] == Connect)
    && (|steps| >= 2 ==> steps[1] == Query(pattern))
    && (|steps| == 3 ==> steps[2].IsAccess())
  }

  /** The step `s` may be taken while running action `a`. */
  predicate Serves(s: Step, a: Action)
  {
    match s
    case Connect => true
    case Query(_) => true
    case Invoke(_, _, _) => a == Call
    case Read(_, _) => a == Get
    case Write(_, _, _) => a == Set
    case Describe(_) => a == Info
  }

  /** An action's exception handler after `steps` threw `e`: the call action
      prints the stack trace and fails without a message; the others fail
      with the exception's text. */
  function Caught(req: Request, steps: seq<Step>, e: string): (r: Run)
    ensures r.steps == steps
    ensures r.exit.Aborted? && !r.exit.usage
    ensures r.stackTrace <==> req.ActionOf() == Call
    ensures r.stackTrace ==> r.exit.messages == []
    ensures !r.stackTrace ==> r.exit.messages == [e]
  {
    if req.InvokeOp? then Run(steps, Aborted(false, []), true)
    else Run(steps, Aborted(false, [e]), false)
  }

  /** The accessor call for `req` on bean `name`, and what it answered as
      command output: call, get and info print the result, set prints
      nothing. */
  function Access(env: Environment, conn: Conn, name: Name, req: Request): (r: (Step, Fallible<Output>))
    ensures r.0.IsAccess() && Serves(r.0, req.ActionOf())
    ensures r.1.Returned? && req.WriteAttr? ==> r.1.value == NoOutput
    ensures r.1.Returned? && !req.WriteAttr? ==> r.1.value.Printed?
    ensures req.InvokeOp? ==>
              var answer := env.invoke(conn, name, req.operation, req.arguments);
              && r.0 == Invoke(name, req.operation, req.arguments)
              && (r.1.Returned? <==> answer.Returned?)
              && (r.1.Returned? ==> r.1.value == Printed(answer.value))
              && (r.1.Threw? ==> r.1.description == answer.description)
    ensures req.ReadAttr? ==>
              var answer := env.read(conn, name, req.attribute);
              && r.0 == Read(name, req.attribute)
              && (r.1.Returned? <==> answer.Returned?)
              && (r.1.Returned? ==> r.1.value == Printed(answer.value))
              && (r.1.Threw? ==> r.1.description == answer.description)
    ensures req.WriteAttr? ==>
              var answer := env.write(conn, name, req.attribute, req.value);
              && r.0 == Write(name, req.attribute, req.value)
              && (r.1.Returned? <==> answer.Returned?)
              && (r.1.Threw? ==> r.1.description == answer.description)
    ensures req.DescribeBean? ==>
              var answer := env.describe(conn, name);
              && r.0 == Describe(name)
              && (r.1.Returned? <==> answer.Returned?)
              && (r.1.Returned? ==> r.1.value == Printed(answer.value))
              && (r.1.Threw? ==> r.1.description == answer.description)
  {
    match req
    case InvokeOp(op, args) =>
      (Invoke(name, op, args),
       match env.invoke(conn, name, op, args)
       case Returned(v) => Returned(Printed(v))
       case Threw(e) => Threw(e))
    case ReadAttr(attr) =>
      (Read(name, attr),
       match env.read(conn, name, attr)
       case Returned(v) => Returned(Printed(v))
       case Threw(e) => Threw(e))
    case WriteAttr(attr, value) =>
      (Write(name, attr, value),
       match env.write(conn, name, attr, value)
       case Returned(_) => Returned(NoOutput)
       case Threw(e) => Threw(e))
    case DescribeBean =>
      (Describe(name),
       match env.describe(conn, name)
       case Returned(v) => Returned(Printed(v))
       case Threw(e) => Threw(e))
  }

  /** Runs a request whose parameters were accepted: connect, resolve the bean
      pattern to one bean, make the accessor call. */
  function Execute(req: Request, pattern: string, env: Environment): (r: Run)
    ensures Protocol(r.steps, pattern)
    ensures forall i :: 0 <= i < |r.steps| ==> Serves(r.steps[i], req.ActionOf())
    ensures r.exit.Aborted? ==> !r.exit.usage
    ensures r.exit.Completed? ==> |r.steps| == 3 && !r.stackTrace
    ensures r.stackTrace ==> req.ActionOf() == Call
  {
    match env.connect
    case Threw(e) => Caught(req, [Connect], e)
    case Returned(conn) =>
      var queried := [Connect, Query(pattern)];
      match env.query(conn, pattern)
      case Threw(e) => Caught(req, queried, e)
      case Returned(matches) =>
        match Resolve(pattern, matches)
        case Failed(msg) => Run(queried, Aborted(false, [msg]), false)
        case Resolved(name) =>
          var (step, answer) := Access(env, conn, name, req);
          match answer
          case Threw(e) => Caught(req, queried + [step], e)
          case Returned(out) => Run(queried + [step], Completed(out), false)
  }

  /** One action's run: parameter check first, so that a missing parameter
      fails with the usage text before anything remote happens. */
  function RunAction(a: Action, o: Options, env: Environment): (r: Run)
    ensures !HasParameters(a, o) <==> r.exit.Aborted? && r.exit.usage
    ensures !HasParameters(a, o) ==> r.steps == [] && !r.stackTrace
    ensures forall i :: 0 <= i < |r.steps| ==> Serves(r.steps[i], a)
  {
    match Prepare(a, o)
    case Rejected(msg) => Run([], Aborted(true, [msg]), false)
    case Ready(req) => Execute(req, o.bean, env)
  }

  /** The whole command: exactly one action flag must be set, otherwise it
      fails with the usage text; that action alone is then run. */
  function Mx(o: Options, env: Environment): (r: Run)
    ensures Protocol(r.steps, o.bean)
    ensures r.exit.Aborted? && r.exit.usage ==> r.steps == [] && !r.stackTrace
    ensures r.stackTrace ==> OnlyChosen(o, Call)
    ensures r.exit.Completed? ==> |r.steps| == 3
  {
    var actions := Selected(o);
    if |actions| != 1 then
      Run([], Aborted(true, [ChooseOne]), false)
    else
      RunAction(actions[0], o, env)
  }
}
