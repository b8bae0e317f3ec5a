/** What the I/O check looks for: the shapes of I/O calls, of calls to helpers, and of the chains between them. */
module CallMeaning {
  import opened Outcomes
  import opened CallReach

  // ---------------------------------------------------------------- shapes of expressions

  /** `base.a.b.c` */
  function Dotted(base: Ast, names: seq<string>): Ast {
    if names == [] then base else Attribute(Dotted(base, names[..|names| - 1]), names[|names| - 1])
  }

  /** `base(...)(...)(...)` */
  function Applied(base: Ast, calls: seq<seq<Ast>>): Ast {
    if calls == [] then base else Call(Applied(base, calls[..|calls| - 1]), calls[|calls| - 1])
  }

  /** A chain of attributes on a chain of calls on a name. */
  ghost predicate RootedAt(a: Ast, id: string) {
    exists calls, names :: a == Dotted(Applied(Name(id), calls), names)
  }

  lemma {:induction false} StripDotted(base: Ast, names: seq<string>)
    requires !base.Attribute?
    ensures StripAttributes(Dotted(base, names)) == base
  {
    if names != [] {
      StripDotted(base, names[..|names| - 1]);
    }
  }

  lemma {:induction false} StripApplied(id: string, calls: seq<seq<Ast>>)
    ensures StripCalls(Applied(Name(id), calls)) == Name(id) && !Applied(Name(id), calls).Attribute?
  {
    if calls != [] {
      StripApplied(id, calls[..|calls| - 1]);
    }
  }

  lemma {:induction false} DottedStrip(a: Ast) returns (names: seq<string>)
    ensures a == Dotted(StripAttributes(a), names)
  {
    names := [];
    if a.Attribute? {
      var inner := DottedStrip(a.value);
      names := inner + [a.attr];
      assert names[..|inner|] == inner;
    }
  }

  lemma {:induction false} AppliedStrip(a: Ast) returns (calls: seq<seq<Ast>>)
    ensures a == Applied(StripCalls(a), calls)
  {
    calls := [];
    if a.Call? {
      var inner := AppliedStrip(a.func);
      calls := inner + [a.arguments];
      assert calls[..|inner|] == inner;
    }
  }

  /** The root name of an expression is the name its attributes and calls are stacked on. */
  lemma RootNameMeans(a: Ast, id: string)
    ensures RootName(a) == Some(id) <==> RootedAt(a, id)
  {
    if RootName(a) == Some(id) {
      var names := DottedStrip(a);
      var calls := AppliedStrip(StripAttributes(a));
      assert a == Dotted(Applied(Name(id), calls), names);
    }
    if calls, names :| a == Dotted(Applied(Name(id), calls), names) {
      StripApplied(id, calls);
      StripDotted(Applied(Name(id), calls), names);
    }
  }

  // ---------------------------------------------------------------- I/O calls

  /** Names that are I/O on anything. */
  const ALWAYS: set<string> := {"Popen", "open", "rglob", "glob", "read_text", "read_bytes", "socket"}

  /** Names that are I/O on an HTTP client module. */
  const REQUESTS: set<string> := {"get", "post", "put", "patch", "delete", "request"}

  /** The attribute called on this value is I/O. */
  ghost predicate IoAttribute(value: Ast, attr: string) {
    || attr in ALWAYS
    || (attr == "run" && RootedAt(value, "subprocess"))
    || (attr in REQUESTS && (RootedAt(value, "httpx") || RootedAt(value, "requests")))
  }

  /** `open(...)`, or a call of an attribute that is I/O. */
  ghost predicate IsIoCall(node: Ast) {
    || (exists arguments :: node == Call(Name("open"), arguments))
    || (exists value, attr, arguments :: node == Call(Attribute(value, attr), arguments) && IoAttribute(value, attr))
  }

  /** What an I/O call is reported as. */
  ghost predicate ReportedAs(node: Ast, text: string) {
    if node.Call? && node.func.Attribute? then
      var tail := "." + node.func.attr + "(...)";
      if exists id :: id != "" && RootedAt(node.func.value, id)
      then exists id :: id != "" && RootedAt(node.func.value, id) && text == id + tail
      else text == "?" + tail
    else text == "open(...)"
  }

  lemma RootsAre(value: Ast)
    ensures forall id :: RootName(value) == Some(id) <==> RootedAt(value, id)
  {
    forall id ensures RootName(value) == Some(id) <==> RootedAt(value, id) {
      RootNameMeans(value, id);
    }
  }

  lemma AttributeIo(value: Ast, attr: string, arguments: seq<Ast>)
    ensures IoReason(Call(Attribute(value, attr), arguments)).Some? <==> IoAttribute(value, attr)
  {
    RootsAre(value);
    hide RootName;
    hide RootedAt;
    assert IO_CALL_NAMES == ALWAYS + REQUESTS + {"run"};
  }

  /** A node has a reason exactly when it is an I/O call, and it is the text it is reported as. */
  lemma IoReasonExact(node: Ast)
    ensures IoReason(node).Some? <==> IsIoCall(node)
    ensures IoReason(node).Some? ==> ReportedAs(node, IoReason(node).value)
  {
    if node.Call? && node.func.Attribute? {
      AttributeIo(node.func.value, node.func.attr, node.arguments);
      RootsAre(node.func.value);
      hide RootName;
      hide RootedAt;
      hide IoAttribute;
      assert node == Call(Attribute(node.func.value, node.func.attr), node.arguments);
    } else if node.Call? && node.func.Name? {
      assert node == Call(Name(node.func.id), node.arguments);
    }
  }

  // ---------------------------------------------------------------- what is in a body

  /** A node is in a tree exactly when it is its root, or in the value, the function, an argument or a child of it. */
  lemma WithinMeans(node: Ast, root: Ast)
    ensures Within(node, root) <==>
            || node == root
            || (match root
                case Name(_) => false
                case Attribute(value, _) => Within(node, value)
                case Call(func, arguments) => Within(node, func) || exists i :: 0 <= i < |arguments| && Within(node, arguments[i])
                case Other(children) => exists i :: 0 <= i < |children| && Within(node, children[i]))
  {
    if i :| 0 <= i < |Children(root)| && WithinChild(node, root, i) {
      if root.Call? && i > 0 {
        assert Children(root)[i] == root.arguments[i - 1];
      }
    }
    if root.Attribute? && Within(node, root.value) {
      assert Children(root)[0] == root.value && WithinChild(node, root, 0);
    }
    if root.Call? {
      if Within(node, root.func) {
        assert Children(root)[0] == root.func && WithinChild(node, root, 0);
      }
      if i :| 0 <= i < |root.arguments| && Within(node, root.arguments[i]) {
        assert Children(root)[i + 1] == root.arguments[i] && WithinChild(node, root, i + 1);
      }
    }
    if root.Other? {
      if i :| 0 <= i < |root.children| && Within(node, root.children[i]) {
        assert WithinChild(node, root, i);
      }
    }
  }

  /** A body calls a method as `self.name(...)`, and a function as `name(...)`. */
  lemma CallsMeans(body: Ast, name: string)
    ensures Calls(body, SelfCall(name)) <==> exists arguments :: Within(Call(Attribute(Name("self"), name), arguments), body)
    ensures Calls(body, BareCall(name)) <==> exists arguments :: Within(Call(Name(name), arguments), body)
  {
    hide Within;
    if node :| Within(node, body) && IsSelfCall(node) && node.func.attr == name {
      assert node == Call(Attribute(Name("self"), name), node.arguments);
    }
    if node :| Within(node, body) && IsBareCall(node) && node.func.id == name {
      assert node == Call(Name(name), node.arguments);
    }
    if arguments :| Within(Call(Attribute(Name("self"), name), arguments), body) {
      assert IsSelfCall(Call(Attribute(Name("self"), name), arguments));
    }
    if arguments :| Within(Call(Name(name), arguments), body) {
      assert IsBareCall(Call(Name(name), arguments));
    }
  }

  // ---------------------------------------------------------------- chains

  /** The body calls the helper, and the helper is defined as this. */
  ghost predicate LeadsTo(p: Source, body: Ast, c: Callee, d: Definition) {
    match c
    case SelfCall(name) =>
      && (exists arguments :: Within(Call(Attribute(Name("self"), name), arguments), body))
      && name in p.methods && p.methods[name] == d
    case BareCall(name) =>
      && (exists arguments :: Within(Call(Name(name), arguments), body))
      && name in p.functions && p.functions[name] == d
  }

  /** Definitions from `observe` on, each called from the one before. */
  ghost predicate Linked(p: Source, chain: seq<Callee>, definitions: seq<Definition>) {
    && |definitions| == |chain| + 1 && definitions[0] == p.observe
    && forall i :: 0 <= i < |chain| ==> LeadsTo(p, definitions[i].body, chain[i], definitions[i + 1])
  }

  lemma LeadsMeans(p: Source, body: Ast, c: Callee, d: Definition)
    ensures LeadsTo(p, body, c, d) <==> Calls(body, c) && Resolve(p, c) == Some(d)
  {
    hide Within;
    match c
    case SelfCall(name) => CallsMeans(body, name);
    case BareCall(name) => CallsMeans(body, name);
  }

  lemma {:induction false} ChainLinks(p: Source, chain: seq<Callee>) returns (definitions: seq<Definition>)
    requires EndOf(p, chain).Some?
    ensures Linked(p, chain, definitions) && definitions[|chain|] == EndOf(p, chain).value
  {
    hide LeadsTo;
    hide Calls;
    if chain == [] {
      definitions := [p.observe];
    } else {
      var front, last := chain[..|chain| - 1], chain[|chain| - 1];
      var earlier := ChainLinks(p, front);
      definitions := earlier + [EndOf(p, chain).value];
      LeadsMeans(p, earlier[|front|].body, last, EndOf(p, chain).value);
      forall i | 0 <= i < |chain| ensures LeadsTo(p, definitions[i].body, chain[i], definitions[i + 1]) {
        if i < |front| {
          assert front[i] == chain[i];
        }
      }
    }
  }

  lemma {:induction false} LinksChain(p: Source, chain: seq<Callee>, definitions: seq<Definition>)
    requires Linked(p, chain, definitions)
    ensures EndOf(p, chain) == Some(definitions[|chain|])
  {
    hide LeadsTo;
    hide Calls;
    if chain != [] {
      var n := |chain| - 1;
      assert forall i :: 0 <= i < n ==> chain[..n][i] == chain[i];
      LinksChain(p, chain[..n], definitions[..n + 1]);
      LeadsMeans(p, definitions[n].body, chain[n], definitions[n + 1]);
    }
  }

  /** Linked definitions, the last of which holds an I/O call. */
  ghost predicate LinkedToIo(p: Source, chain: seq<Callee>, definitions: seq<Definition>) {
    Linked(p, chain, definitions) && HoldsIo(definitions[|chain|].body)
  }

  /** A chain reaches I/O exactly when its definitions are linked call by call and the last holds an I/O call. */
  lemma ReachesIoMeans(p: Source, chain: seq<Callee>)
    ensures ReachesIo(p, chain) <==> exists definitions :: LinkedToIo(p, chain, definitions)
  {
    hide EndOf;
    hide HoldsIo;
    hide HasDirectIo;
    hide LeadsTo;
    if ReachesIo(p, chain) {
      var definitions := ChainLinks(p, chain);
      DirectMeans(definitions[|chain|].body);
      assert LinkedToIo(p, chain, definitions);
    }
    if definitions: seq<Definition> :| LinkedToIo(p, chain, definitions) {
      LinksChain(p, chain, definitions);
      DirectMeans(definitions[|chain|].body);
    }
  }

  ghost predicate HoldsIo(body: Ast) {
    exists node :: Within(node, body) && IsIoCall(node)
  }

  lemma DirectMeans(body: Ast)
    ensures HasDirectIo(body) <==> HoldsIo(body)
  {
    forall node ensures IoReason(node).Some? <==> IsIoCall(node) {
      IoReasonExact(node);
    }
    hide IoReason;
    hide IsIoCall;
    hide Within;
  }

  // ---------------------------------------------------------------- the report

  /** The calls of a chain, written one after the other. */
  function Written(chain: seq<Callee>): string {
    if chain == [] then ""
    else
      " -> " + (match chain[0] case SelfCall(name) => "self." + name + "()" case BareCall(name) => name + "()")
      + Written(chain[1..])
  }

  lemma {:induction false} WrittenSnoc(chain: seq<Callee>, c: Callee)
    ensures Written(chain + [c]) == Written(chain) + " -> " + CallText(c)
  {
    if chain == [] {
      assert [c][1..] == [];
      assert Written([c]) == " -> " + CallText(c) + "";
    } else {
      assert (chain + [c])[1..] == chain[1..] + [c];
      WrittenSnoc(chain[1..], c);
    }
  }

  lemma TextAssociative(a: string, b: string, c: string, d: string)
    ensures a + (b + c + d) == (a + b) + c + d
  {
  }

  lemma {:induction false} LabelWritten(chain: seq<Callee>)
    ensures Label(chain) == "observe()" + Written(chain)
  {
    if chain == [] {
      assert "observe()" + "" == "observe()";
    } else {
      var front, last := chain[..|chain| - 1], chain[|chain| - 1];
      LabelWritten(front);
      WrittenSnoc(front, last);
      assert chain == front + [last];
      hide Written;
      TextAssociative("observe()", Written(front), " -> ", CallText(last));
    }
  }

  /** A finding in `observe` itself is reported bare, one behind helpers with the calls that lead there. */
  lemma ReportMeans(chain: seq<Callee>, reason: string)
    ensures Report(chain, reason) == if chain == [] then reason else "observe()" + Written(chain) + " -> " + reason
  {
    LabelWritten(chain);
  }
}
