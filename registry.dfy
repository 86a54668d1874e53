/** The static tables of src/agent.py: `command_registry` (built in
    `CommandInterpreter.__init__`) and the module-level `function_map`. */
module Registry {
  import opened Optional

  /** One registry entry: its key, the name of the function it runs, its
      human-readable description and its required parameter names. */
  datatype Command = Command(key: string, functionName: string, description: string, parameters: seq<string>)

  /** A registry in dictionary insertion order. It stands for a dict, so the
      tables the source builds have unique keys (`UniqueKeys`); on such a
      table an entry's position and its key name the same entry
      (`LookupFindsEntry`). */
  type Table = seq<Command>

  /** Dictionary keys are unique. */
  predicate UniqueKeys(reg: Table)
  {
    forall i, j :: 0 <= i < j < |reg| ==> reg[i].key != reg[j].key
  }

  /** `command_registry`, in insertion order. */
  function CommandRegistry(): (reg: Table)
  {
    [ Command("invoice_management", "open_editor", "Open the invoice management website", []),
      Command("invoice_system", "open_editor", "Launch the invoice management system", []),
      Command("service_addition", "add_service", "Add a New Service", ["service_name"]),
      Command("service_creation", "create_service", "Create a new service", ["service_name"]),
      Command("close_website", "close_editor", "Shut down the invoice management website", []),
      Command("close_system", "close_editor", "Close the invoice management system", []) ]
  }

  /** `key in command_registry` / `command_registry[key]`. */
  function Lookup(reg: Table, key: string): (r: Option<Command>)
    ensures r.Some? <==> exists i :: 0 <= i < |reg| && reg[i].key == key
    ensures r.Some? ==> r.value in reg && r.value.key == key
  {
    if reg == [] then None
    else if reg[0].key == key then Some(reg[0])
    else
      var r := Lookup(reg[1..], key);
      assert forall i :: 1 <= i < |reg| ==> reg[i] == reg[1..][i - 1];
      r
  }

  /** With unique keys, looking up the key of an entry finds that entry. */
  lemma {:induction false} LookupFindsEntry(reg: Table, i: nat)
    requires UniqueKeys(reg) && i < |reg|
    ensures Lookup(reg, reg[i].key) == Some(reg[i])
  {
    if i > 0 {
      assert reg[0].key != reg[i].key;
      LookupFindsEntry(reg[1..], i - 1);
    }
  }

  /** A `function_map` value: a LangChain tool (it has an `invoke` method) or
      a plain Python function. */
  datatype Handler = Tool(name: string) | Plain(name: string)

  /** `function_map`. `open_editor` is declared with the `@tool` decorator in
      src/tools.py; `add_service` and `kill_process`, which that file does not
      define, are taken to be plain functions. */
  function FunctionMap(): map<string, Handler>
  {
    map["open_editor" := Tool("open_editor"),
        "add_service" := Plain("add_service"),
        "close_editor" := Plain("kill_process")]
  }

  /** The registry's keys are unique, and every entry names a function. */
  lemma CommandRegistryWellFormed()
    ensures UniqueKeys(CommandRegistry())
    ensures forall i :: 0 <= i < |CommandRegistry()| ==> CommandRegistry()[i].functionName != ""
  {
  }

  /** `service_creation` runs `create_service`, which `function_map` lacks. */
  lemma ServiceCreationUnmapped()
    ensures Lookup(CommandRegistry(), "service_creation") == Some(CommandRegistry()[3])
    ensures CommandRegistry()[3].functionName == "create_service"
    ensures "create_service" !in FunctionMap()
  {
    CommandRegistryWellFormed();
    LookupFindsEntry(CommandRegistry(), 3);
  }
}
