/**
 * The tool table the client publishes for MCP exposure: for each gateway
 * operation its name, a description, and the exact parameter names with
 * their expected formats.
 */
module Tools {
  import opened Wrappers

  datatype Arg = Arg(name: string, format: string)

  datatype Tool = Tool(name: string, description: string, args: seq<Arg>)

  const ToolsMetadata: seq<Tool> := [
    Tool("simulate_stk_push",
         "simulate_stk_push(phone_number, amount, description): Trigger an STK Push via Daraja Sandbox. "
         + "phone_number must be E.164 (e.g., 2547XXXXXXXX). amount must be integer KES. description is a short string.",
         [ Arg("phone_number", "string, E.164 format (e.g., 2547XXXXXXXX)"),
           Arg("amount", "integer, KES"),
           Arg("description", "string, short transaction description") ]),
    Tool("query_transaction_status",
         "query_transaction_status(checkout_request_id): Query the status of an STK push using CheckoutRequestID.",
         [ Arg("checkout_request_id", "string, CheckoutRequestID returned by simulate_stk_push") ]),
    Tool("generate_test_credentials",
         "generate_test_credentials(): Return sandbox Shortcode and example Passkey for quick testing.",
         []),
    Tool("register_callback_url",
         "register_callback_url(url): Register a single HTTPS `url` for both ConfirmationURL and ValidationURL "
         + "for C2B/LNMO in the Daraja sandbox. url must be publicly reachable.",
         [ Arg("url", "string, HTTPS public URL to receive Daraja callbacks") ])
  ]

  function ArgNames(args: seq<Arg>): (names: seq<string>)
    ensures |names| == |args|
    ensures forall i :: 0 <= i < |args| ==> names[i] == args[i].name
  {
    if args == [] then [] else [args[0].name] + ArgNames(args[1..])
  }

  function Names(tools: seq<Tool>): (names: seq<string>)
    ensures |names| == |tools|
    ensures forall i :: 0 <= i < |tools| ==> names[i] == tools[i].name
  {
    seq(|tools|, i requires 0 <= i < |tools| => tools[i].name)
  }

  /** The entry for `name`, as `TOOLS_METADATA.get(name)`. */
  function FindTool(tools: seq<Tool>, name: string): (r: Option<Tool>)
    ensures r.None? <==> name !in Names(tools)
    ensures r.Some? ==> r.value in tools && r.value.name == name
  {
    if tools == [] then None
    else if tools[0].name == name then Some(tools[0])
    else FindTool(tools[1..], name)
  }

  /** The table lists the client's four operations, each once, with their parameters in order. */
  lemma MetadataNames()
    ensures Names(ToolsMetadata)
         == ["simulate_stk_push", "query_transaction_status", "generate_test_credentials", "register_callback_url"]
    ensures forall i, j :: 0 <= i < j < |ToolsMetadata| ==> ToolsMetadata[i].name != ToolsMetadata[j].name
    ensures ArgNames(ToolsMetadata[0].args) == ["phone_number", "amount", "description"]
    ensures ArgNames(ToolsMetadata[1].args) == ["checkout_request_id"]
    ensures ArgNames(ToolsMetadata[2].args) == []
    ensures ArgNames(ToolsMetadata[3].args) == ["url"]
  {
  }
}
