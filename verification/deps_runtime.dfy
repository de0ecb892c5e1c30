/** The runtime-tools section of `main` in `ci/deps/check-deps.py`: the
    declared runtime tools of the client and server documents become a set
    of normalised command tokens, and tokens no installer script mentions are
    reported as notes. The notes never touch the exit status; an exception
    on the way does, since it ends the script with status 1. Scanning the
    scripts for the tokens is file input and is not modelled. */
module DepsRuntime {

  import opened Text
  import opened Py
  import opened DepsWorkflow

  /** `normalize_tool_list(value)`: a list is used as it is, `None` and any
      other value count as no tools. */
  function ToolList(v: Value): seq<Value> {
    if v.List? then v.items else []
  }

  /** A tool entry the section digests without raising: hashable (so `set`
      accepts it) and, when truthy, a string with at least one word (so
      `tool.split()[0]` exists). */
  predicate UsableTool(t: Value) {
    !t.List? && !t.Dict? && (Truthy(t) ==> t.Str? && HasWord(t.s))
  }

  predicate UsableList(v: Value) {
    v.List? ==> forall i :: 0 <= i < |v.items| ==> UsableTool(v.items[i])
  }

  /** The document's `runtime.tools` is a mapping reached through mappings,
      and both of its tool lists are usable. */
  predicate UsableTools(doc: Entries) {
    && Lookup(doc, "runtime").Some?
    && Lookup(doc, "runtime").value.Dict?
    && Lookup(Lookup(doc, "runtime").value.entries, "tools").Some?
    && var tools := Lookup(Lookup(doc, "runtime").value.entries, "tools").value;
    && tools.Dict?
    && UsableList(GetOr(tools.entries, "mandatory", Null))
    && UsableList(GetOr(tools.entries, "optional", Null))
  }

  /** `set(normalize_tool_list(doc["runtime"]["tools"].get(key)))`, as the
      elements the set is built from. */
  function ToolsOf(doc: Entries, key: string): (r: Result<seq<Value>>)
    ensures r.Ok? ==> forall i :: 0 <= i < |r.value| ==> !r.value[i].List? && !r.value[i].Dict?
  {
    var runtime :- Index(Dict(doc), "runtime");
    var tools :- Index(runtime, "tools");
    var v :- Get(tools, key, Null);
    SetOf(List(ToolList(v)))
  }

  /** The token of one truthy tool entry: `normalize_token(tool.split()[0])`.
      A non-string has no `split` and a blank string has no first word. */
  function ToolToken(tool: Value): (r: Result<string>)
    ensures r.Ok? <==> tool.Str? && HasWord(tool.s)
    ensures r.Ok? ==> forall i :: 0 <= i < |r.value| ==> IsTokenChar(r.value[i])
  {
    if !tool.Str? then Raised(AttributeError)
    else if !HasWord(tool.s) then Raised(IndexError)
    else Ok(NormalizeToken(FirstWord(tool.s)))
  }

  /** Every truthy entry has a token. */
  predicate TokensOk(tools: seq<Value>) {
    forall i :: 0 <= i < |tools| && Truthy(tools[i]) ==> ToolToken(tools[i]).Ok?
  }

  lemma TokensOkAppend(a: seq<Value>, b: seq<Value>)
    ensures TokensOk(a + b) <==> TokensOk(a) && TokensOk(b)
  {
    assert forall i :: 0 <= i < |a| ==> (a + b)[i] == a[i];
    assert forall i :: 0 <= i < |b| ==> (a + b)[|a| + i] == b[i];
  }

  /** `{normalize_token(tool.split()[0]) for tool in runtime_tools if tool}`.
      Set iteration order is unspecified in Python, so only whether some
      entry raises is modelled, not which exception comes first. */
  function RuntimeTokens(tools: seq<Value>): (r: Result<set<string>>)
    ensures r.Ok? <==> TokensOk(tools)
    ensures r.Ok? ==> forall t :: t in r.value <==>
      exists i :: 0 <= i < |tools| && Truthy(tools[i]) && ToolToken(tools[i]) == Ok(t)
  {
    if |tools| == 0 then Ok({})
    else
      assert forall i :: 1 <= i < |tools| ==> tools[i] == tools[1..][i - 1];
      var rest :- RuntimeTokens(tools[1..]);
      if !Truthy(tools[0]) then Ok(rest)
      else
        var t :- ToolToken(tools[0]);
        Ok({t} + rest)
  }

  /** The runtime-tools section: it leaves `ok` as it is, so its only
      outcomes are going on or raising. */
  function RuntimeSection(client: Entries, server: Entries): (r: Result<bool>)
    ensures r.Ok? ==> r.value
  {
    var clientMandatory :- ToolsOf(client, "mandatory");
    var clientOptional :- ToolsOf(client, "optional");
    var serverMandatory :- ToolsOf(server, "mandatory");
    var serverOptional :- ToolsOf(server, "optional");
    var tokens :- RuntimeTokens(clientMandatory + clientOptional + serverMandatory + serverOptional);
    Ok(true)
  }

  /** `ToolsOf` succeeds exactly when the document's tools mapping is
      reachable and the chosen list is hashable throughout. */
  lemma ToolsOfOk(doc: Entries, key: string)
    requires key == "mandatory" || key == "optional"
    ensures ToolsOf(doc, key).Ok? <==>
      && Lookup(doc, "runtime").Some?
      && Lookup(doc, "runtime").value.Dict?
      && Lookup(Lookup(doc, "runtime").value.entries, "tools").Some?
      && Lookup(Lookup(doc, "runtime").value.entries, "tools").value.Dict?
      && var v := GetOr(Lookup(Lookup(doc, "runtime").value.entries, "tools").value.entries, key, Null);
      && forall i :: 0 <= i < |ToolList(v)| ==> !ToolList(v)[i].List? && !ToolList(v)[i].Dict?
    ensures ToolsOf(doc, key).Ok? ==>
      ToolsOf(doc, key).value ==
        ToolList(GetOr(Lookup(Lookup(doc, "runtime").value.entries, "tools").value.entries, key, Null))
  {
  }

  /** One document's share of the section: its two tool lists are read
      and tokenised without raising exactly when its tools are usable. */
  lemma DocumentToolsOk(doc: Entries)
    ensures (ToolsOf(doc, "mandatory").Ok? && ToolsOf(doc, "optional").Ok? &&
             TokensOk(ToolsOf(doc, "mandatory").value + ToolsOf(doc, "optional").value))
            <==> UsableTools(doc)
  {
    ToolsOfOk(doc, "mandatory");
    ToolsOfOk(doc, "optional");
    var a := ToolsOf(doc, "mandatory");
    var b := ToolsOf(doc, "optional");
    if a.Ok? && b.Ok? {
      var tools := Lookup(Lookup(doc, "runtime").value.entries, "tools").value;
      ListUsable(GetOr(tools.entries, "mandatory", Null));
      ListUsable(GetOr(tools.entries, "optional", Null));
      TokensOkAppend(a.value, b.value);
    } else if UsableTools(doc) {
      var tools := Lookup(Lookup(doc, "runtime").value.entries, "tools").value;
      ListUsable(GetOr(tools.entries, "mandatory", Null));
      ListUsable(GetOr(tools.entries, "optional", Null));
    }
  }

  /** A tool list is usable exactly when its entries are hashable and every
      truthy one has a token. */
  lemma ListUsable(v: Value)
    ensures UsableList(v) <==>
      (forall i :: 0 <= i < |ToolList(v)| ==> !ToolList(v)[i].List? && !ToolList(v)[i].Dict?) &&
      TokensOk(ToolList(v))
  {
  }

  /** The section runs through exactly when both documents' runtime tools
      are usable; otherwise it raises and the script exits with status 1. */
  lemma RuntimeSectionOk(client: Entries, server: Entries)
    ensures RuntimeSection(client, server).Ok? <==> UsableTools(client) && UsableTools(server)
  {
    DocumentToolsOk(client);
    DocumentToolsOk(server);
    var a := ToolsOf(client, "mandatory");
    var b := ToolsOf(client, "optional");
    var c := ToolsOf(server, "mandatory");
    var d := ToolsOf(server, "optional");
    if a.Ok? && b.Ok? && c.Ok? && d.Ok? {
      TokensOkAppend(a.value + b.value + c.value, d.value);
      TokensOkAppend(a.value + b.value, c.value);
      TokensOkAppend(a.value, b.value);
      TokensOkAppend(c.value, d.value);
    }
  }
}
