/** `CommandInterpreter.execute_command` and `get_input` (src/agent.py): the
    decision tree from an interpretation to a status record. Every outcome,
    including an exception raised by a handler, is returned as data.

    Handler calls are the parameter `env`, which says for each call whether
    the handler returns a value or raises. */
module Dispatcher {
  import opened Optional
  import opened PyText
  import opened Registry
  import opened Interpreter

  datatype Status = Success | Failed | Error

  /** The `message` of the status record, by branch. */
  datatype Message =
    | Executed(functionName: string)
    | FunctionNotFound(functionName: string)
    | NoFunction(command: string)
    | ExecutionError(cause: string)
    | NotInRegistry(command: string)

  /** The `function_result` of the status record. */
  datatype FunctionResult =
    | NoResult                                 // the empty string of the failure branches
    | Returned(value: string)                  // what the handler returned
    | MissingParameters(required: seq<string>) // the nested record with status "failed"

  /** The status record returned by `execute_command`. */
  datatype DispatchResult = DispatchResult(status: Status, message: Message,
                                           functionResult: FunctionResult,
                                           interpretation: Interpretation)

  /** A handler call: `func.invoke(input)` on a tool, or `func(*args)`. */
  datatype HandlerCall = Invoke(handler: string, input: string) | Apply(handler: string, args: seq<string>)

  /** What a handler call does: returns a value or raises an exception. */
  datatype CallOutcome = Return(value: string) | Raise(cause: string)

  /** The message text of each branch, as the source formats it. */
  function Render(m: Message): string
  {
    match m
    case Executed(f) => "Successfully executed " + f
    case FunctionNotFound(f) => "Function " + f + " not found."
    case NoFunction(c) => "No function specified for command " + c
    case ExecutionError(e) => "Error executing command: " + e
    case NotInRegistry(c) => "Command " + c + " not found in registry"
  }

  /** The message of the missing-parameters record. */
  function MissingMessage(required: seq<string>): string
  {
    "Missing required parameters: " + ListRepr(required)
  }

  /** Every required parameter is present in the extracted parameters. */
  predicate AllPresent(required: seq<string>, params: map<string, string>)
  {
    forall i :: 0 <= i < |required| ==> required[i] in params
  }

  /** The call the dispatcher makes for a resolved handler: a tool is invoked
      with the empty string; a plain function is applied to the values of its
      required parameters, in order, and is not called when one is missing. */
  function CallFor(h: Handler, required: seq<string>, params: map<string, string>): Option<HandlerCall>
  {
    match h
    case Tool(name) => Some(Invoke(name, ""))
    case Plain(name) =>
      if AllPresent(required, params)
      then Some(Apply(name, seq(|required|, i requires 0 <= i < |required| && AllPresent(required, params) => params[required[i]])))
      else None
  }

  /** The handler call `execute_command` makes for an interpretation, if any. */
  function HandlerCallOf(interp: Interpretation, reg: Table, fmap: map<string, Handler>): Option<HandlerCall>
  {
    match Lookup(reg, interp.command)
    case None => None
    case Some(c) =>
      if c.functionName == "" || c.functionName !in fmap then None
      else CallFor(fmap[c.functionName], c.parameters, interp.parameters)
  }

  /** The decision tree of `execute_command` after interpretation. */
  function Dispatch(interp: Interpretation, reg: Table, fmap: map<string, Handler>,
                    env: HandlerCall -> CallOutcome): DispatchResult
  {
    match Lookup(reg, interp.command)
    case None => DispatchResult(Failed, NotInRegistry(interp.command), NoResult, interp)
    case Some(c) =>
      if c.functionName == "" then
        DispatchResult(Failed, NoFunction(interp.command), NoResult, interp)
      else if c.functionName !in fmap then
        DispatchResult(Failed, FunctionNotFound(c.functionName), NoResult, interp)
      else
        match CallFor(fmap[c.functionName], c.parameters, interp.parameters)
        case None => DispatchResult(Success, Executed(c.functionName), MissingParameters(c.parameters), interp)
        case Some(call) =>
          match env(call)
          case Return(v) => DispatchResult(Success, Executed(c.functionName), Returned(v), interp)
          case Raise(e) => DispatchResult(Error, ExecutionError(e), NoResult, interp)
  }

  /** The status is `success` exactly when the entry exists, names a function
      that `function_map` has, and the handler, if called, returned; it is
      `error` exactly when the handler was called and raised; every other
      outcome is `failed`. The interpretation is always carried along. */
  lemma DispatchStatus(interp: Interpretation, reg: Table, fmap: map<string, Handler>,
                       env: HandlerCall -> CallOutcome)
    ensures var r := Dispatch(interp, reg, fmap, env);
      var c := Lookup(reg, interp.command);
      var call := HandlerCallOf(interp, reg, fmap);
      && r.interpretation == interp
      && (r.status == Success <==>
            c.Some? && c.value.functionName != "" && c.value.functionName in fmap
            && (call.None? || env(call.value).Return?))
      && (r.status == Error <==> call.Some? && env(call.value).Raise?)
      && (r.status == Failed <==>
            c.None? || c.value.functionName == "" || c.value.functionName !in fmap)
  {
  }

  /** A command that is not a registry key fails with "not found in
      registry" and calls nothing. */
  lemma NotInRegistryFails(interp: Interpretation, reg: Table, fmap: map<string, Handler>,
                           env: HandlerCall -> CallOutcome)
    requires forall i :: 0 <= i < |reg| ==> reg[i].key != interp.command
    ensures Dispatch(interp, reg, fmap, env) == DispatchResult(Failed, NotInRegistry(interp.command), NoResult, interp)
    ensures HandlerCallOf(interp, reg, fmap) == None
    ensures Contains(Render(NotInRegistry(interp.command)), " not found in registry")
  {
    InfixContained("Command " + interp.command, " not found in registry", "");
    assert "Command " + interp.command + " not found in registry" + ""
        == "Command " + interp.command + " not found in registry";
  }

  /** When a plain function's required parameter is missing, the handler is
      not called, yet the top-level status is `success` and the function
      result is the missing-parameters record, whose message names every
      required parameter. */
  lemma MissingParametersNotCalled(interp: Interpretation, reg: Table, fmap: map<string, Handler>,
                                   env: HandlerCall -> CallOutcome, c: Command, missing: nat)
    requires Lookup(reg, interp.command) == Some(c)
    requires c.functionName != "" && c.functionName in fmap && fmap[c.functionName].Plain?
    requires missing < |c.parameters| && c.parameters[missing] !in interp.parameters
    ensures HandlerCallOf(interp, reg, fmap) == None
    ensures Dispatch(interp, reg, fmap, env)
         == DispatchResult(Success, Executed(c.functionName), MissingParameters(c.parameters), interp)
    ensures forall k :: 0 <= k < |c.parameters| ==> Contains(MissingMessage(c.parameters), c.parameters[k])
  {
    forall k | 0 <= k < |c.parameters| ensures Contains(MissingMessage(c.parameters), c.parameters[k]) {
      ListReprNames(c.parameters, k);
      var s := ListRepr(c.parameters);
      var i :| 0 <= i && OccursAt(s, c.parameters[k], i);
      var pre := "Missing required parameters: ";
      assert MissingMessage(c.parameters) == pre + s;
      assert OccursAt(pre + s, c.parameters[k], |pre| + i) by {
        assert (pre + s)[|pre| + i..|pre| + i + |c.parameters[k]|] == s[i..i + |c.parameters[k]|];
      }
    }
  }

  /** A plain function is applied to the values of its required parameters,
      in the registry's order. */
  lemma CallArguments(interp: Interpretation, reg: Table, fmap: map<string, Handler>, c: Command)
    requires Lookup(reg, interp.command) == Some(c)
    requires c.functionName != "" && c.functionName in fmap && fmap[c.functionName].Plain?
    requires AllPresent(c.parameters, interp.parameters)
    ensures HandlerCallOf(interp, reg, fmap).Some?
    ensures var call := HandlerCallOf(interp, reg, fmap).value;
      && call == Apply(fmap[c.functionName].name, call.args)
      && |call.args| == |c.parameters|
      && forall i :: 0 <= i < |c.parameters| ==> call.args[i] == interp.parameters[c.parameters[i]]
  {
  }

  /** The dispatcher consults handlers only through the one call it makes: two
      environments that agree on that call (or any two, when no call is made)
      give the same record. */
  lemma OnlyThatCall(interp: Interpretation, reg: Table, fmap: map<string, Handler>,
                     env1: HandlerCall -> CallOutcome, env2: HandlerCall -> CallOutcome)
    requires match HandlerCallOf(interp, reg, fmap)
             case None => true
             case Some(call) => env1(call) == env2(call)
    ensures Dispatch(interp, reg, fmap, env1) == Dispatch(interp, reg, fmap, env2)
  {
  }

  /** A returned value is exactly what the handler call returned. */
  lemma ReturnedFromHandler(interp: Interpretation, reg: Table, fmap: map<string, Handler>,
                            env: HandlerCall -> CallOutcome)
    requires Dispatch(interp, reg, fmap, env).functionResult.Returned?
    ensures HandlerCallOf(interp, reg, fmap).Some?
    ensures env(HandlerCallOf(interp, reg, fmap).value)
         == Return(Dispatch(interp, reg, fmap, env).functionResult.value)
  {
  }

  /** With the source's tables, the unknown record fails as not found in the
      registry. */
  lemma UnknownFails(env: HandlerCall -> CallOutcome)
    ensures Dispatch(Unknown(), CommandRegistry(), FunctionMap(), env)
         == DispatchResult(Failed, NotInRegistry("unknown"), NoResult, Unknown())
  {
    NotInRegistryFails(Unknown(), CommandRegistry(), FunctionMap(), env);
  }

  /** With the source's tables, `service_creation` fails: its function
      `create_service` is not in `function_map`. */
  lemma ServiceCreationFails(params: map<string, string>, env: HandlerCall -> CallOutcome)
    ensures var interp := Interpretation("service_creation", params);
      Dispatch(interp, CommandRegistry(), FunctionMap(), env)
      == DispatchResult(Failed, FunctionNotFound("create_service"), NoResult, interp)
  {
    ServiceCreationUnmapped();
  }

  /** With the source's tables, `service_addition` without a service name
      reports `success` with the missing-parameters record and calls nothing. */
  lemma ServiceAdditionWithoutName(env: HandlerCall -> CallOutcome)
    ensures var interp := Interpretation("service_addition", map[]);
      && Dispatch(interp, CommandRegistry(), FunctionMap(), env)
         == DispatchResult(Success, Executed("add_service"), MissingParameters(["service_name"]), interp)
      && HandlerCallOf(interp, CommandRegistry(), FunctionMap()) == None
  {
    var interp := Interpretation("service_addition", map[]);
    CommandRegistryWellFormed();
    LookupFindsEntry(CommandRegistry(), 2);
    MissingParametersNotCalled(interp, CommandRegistry(), FunctionMap(), env, CommandRegistry()[2], 0);
  }

  /** An input that scores at or below the floor against every entry fails,
      and no handler is called (for any registry without an `unknown` key,
      such as the source's, see `UnknownFails`). */
  lemma BelowFloorFails(userInput: string, reg: Table, fmap: map<string, Handler>,
                        ratio: (string, string) -> real, search: (string, string) -> Option<string>,
                        env: HandlerCall -> CallOutcome)
    requires forall i :: 0 <= i < |reg| ==> reg[i].key != "unknown"
    requires forall i :: 0 <= i < |reg| ==> Score(Strip(Lower(userInput)), reg[i], ratio) <= Floor
    ensures var interp := Interpret(userInput, reg, ratio, search);
      && Dispatch(interp, reg, fmap, env) == DispatchResult(Failed, NotInRegistry("unknown"), NoResult, Unknown())
      && HandlerCallOf(interp, reg, fmap) == None
  {
    InterpretChoosesBest(userInput, reg, ratio, search);
    NotInRegistryFails(Unknown(), reg, fmap, env);
  }

  /** `execute_command`: interpret the input, then dispatch. */
  method ExecuteCommand(userInput: string, reg: Table, fmap: map<string, Handler>,
                        ratio: (string, string) -> real, search: (string, string) -> Option<string>,
                        env: HandlerCall -> CallOutcome) returns (r: DispatchResult)
    ensures r == Dispatch(Interpret(userInput, reg, ratio, search), reg, fmap, env)
  {
    var interpretation := InterpretCommand(userInput, reg, ratio, search);
    r := Dispatch(interpretation, reg, fmap, env);
  }

  /** `get_input`: runs `execute_command` on the request's `prompt` with the
      source's tables and returns its function result; `None` stands for the
      `KeyError` raised when the request has no `prompt`. */
  method GetInput(request: map<string, string>, ratio: (string, string) -> real,
                  search: (string, string) -> Option<string>, env: HandlerCall -> CallOutcome)
    returns (r: Option<FunctionResult>)
    ensures "prompt" !in request ==> r == None
    ensures "prompt" in request ==>
      r == Some(Dispatch(Interpret(request["prompt"], CommandRegistry(), ratio, search),
                         CommandRegistry(), FunctionMap(), env).functionResult)
  {
    if "prompt" !in request {
      return None;
    }
    var result := ExecuteCommand(request["prompt"], CommandRegistry(), FunctionMap(), ratio, search, env);
    r := Some(result.functionResult);
  }
}
