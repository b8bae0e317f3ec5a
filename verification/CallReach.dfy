/**
 The static search for I/O behind `observe()` (`scripts/check_observe_independence.py`): which bodies
 call I/O directly, and which reach one through calls resolved inside the same file.
 */
module CallReach {
  import opened Outcomes
  import opened Sequences

  // ---------------------------------------------------------------- syntax trees

  /** The parts of a Python syntax tree the search tells apart. */
  datatype Ast =
    | Name(id: string)
    | Attribute(value: Ast, attr: string)
    | Call(func: Ast, arguments: seq<Ast>)
    | Other(children: seq<Ast>)

  function Children(a: Ast): seq<Ast> {
    match a
    case Name(_) => []
    case Attribute(value, _) => [value]
    case Call(func, arguments) => [func] + arguments
    case Other(children) => children
  }

  function Size(a: Ast): nat
    decreases a, 0
  {
    match a
    case Name(_) => 1
    case Attribute(value, _) => 1 + Size(value)
    case Call(func, arguments) => 1 + Size(func) + SizeAll(arguments)
    case Other(children) => 1 + SizeAll(children)
  }

  function SizeAll(s: seq<Ast>): nat
    decreases s, |s|
  {
    if s == [] then 0 else SizeAll(s[..|s| - 1]) + Size(s[|s| - 1])
  }

  lemma {:induction false} SizeAllAppend(a: seq<Ast>, b: seq<Ast>)
    ensures SizeAll(a + b) == SizeAll(a) + SizeAll(b)
    decreases b, |b|
  {
    if b == [] {
      assert a + b == a;
    } else {
      assert (a + b)[..|a + b| - 1] == a + b[..|b| - 1];
      SizeAllAppend(a, b[..|b| - 1]);
    }
  }

  lemma ChildrenAreSmaller(first: Ast, rest: seq<Ast>)
    ensures SizeAll(rest + Children(first)) < SizeAll([first] + rest)
  {
    SizeAllAppend(rest, Children(first));
    SizeAllAppend([first], rest);
    SizeOne(first);
    match first
    case Call(func, arguments) => SizeAllAppend([func], arguments); SizeOne(func);
    case Attribute(value, _) => SizeOne(value);
    case _ =>
  }

  lemma SizeOne(a: Ast)
    ensures SizeAll([a]) == Size(a)
  {
    assert [a][..0] == [];
  }

  /** `ast.walk`: breadth first, every node once it has been reached. */
  function Walk(todo: seq<Ast>): seq<Ast>
    decreases SizeAll(todo)
  {
    if todo == [] then []
    else
      ChildrenAreSmaller(todo[0], todo[1..]);
      assert [todo[0]] + todo[1..] == todo;
      [todo[0]] + Walk(todo[1..] + Children(todo[0]))
  }

  /** `node` is `root` or one of its descendants. */
  ghost predicate Within(node: Ast, root: Ast)
    decreases Size(root)
  {
    node == root || exists i :: 0 <= i < |Children(root)| && WithinChild(node, root, i)
  }

  ghost predicate WithinChild(node: Ast, root: Ast, i: nat)
    requires i < |Children(root)|
    decreases Size(root), 0
  {
    ChildSize(root, i);
    Within(node, Children(root)[i])
  }

  lemma ChildSize(root: Ast, i: nat)
    requires i < |Children(root)|
    ensures Size(Children(root)[i]) < Size(root)
  {
    match root
    case Call(func, arguments) => if i > 0 { MemberSize(arguments, i - 1); }
    case Other(children) => MemberSize(children, i);
    case _ =>
  }

  lemma {:induction false} MemberSize(s: seq<Ast>, i: nat)
    requires i < |s|
    ensures Size(s[i]) <= SizeAll(s)
    decreases |s|
  {
    if i < |s| - 1 {
      MemberSize(s[..|s| - 1], i);
    }
  }

  ghost predicate WithinSome(node: Ast, todo: seq<Ast>) {
    exists i :: 0 <= i < |todo| && Within(node, todo[i])
  }

  lemma WithinSomeStep(node: Ast, first: Ast, rest: seq<Ast>)
    ensures WithinSome(node, [first] + rest) <==> node == first || WithinSome(node, rest + Children(first))
  {
    var all, next := [first] + rest, rest + Children(first);
    if WithinSome(node, all) && node != first {
      var i :| 0 <= i < |all| && Within(node, all[i]);
      if i == 0 {
        assert Within(node, first);
        var j :| 0 <= j < |Children(first)| && WithinChild(node, first, j);
        assert next[|rest| + j] == Children(first)[j];
      } else {
        assert next[i - 1] == all[i];
      }
    }
    if node == first {
      assert Within(node, all[0]);
    } else if WithinSome(node, next) {
      var i :| 0 <= i < |next| && Within(node, next[i]);
      if i < |rest| {
        assert all[i + 1] == next[i];
      } else {
        assert WithinChild(node, first, i - |rest|);
        assert Within(node, all[0]);
      }
    }
  }

  /** The walk meets exactly the nodes of the trees it starts from. */
  lemma {:induction false} WalkVisitsEveryNode(todo: seq<Ast>, node: Ast)
    ensures node in Walk(todo) <==> WithinSome(node, todo)
    decreases SizeAll(todo)
  {
    if todo != [] {
      assert [todo[0]] + todo[1..] == todo;
      ChildrenAreSmaller(todo[0], todo[1..]);
      WalkVisitsEveryNode(todo[1..] + Children(todo[0]), node);
      WithinSomeStep(node, todo[0], todo[1..]);
    }
  }

  lemma WalkOfOne(body: Ast, node: Ast)
    ensures node in Walk([body]) <==> Within(node, body)
  {
    WalkVisitsEveryNode([body], node);
    if Within(node, body) {
      assert Within(node, [body][0]);
    }
  }

  // ---------------------------------------------------------------- direct I/O

  const IO_CALL_NAMES := {
    "run", "Popen", "get", "post", "put", "patch", "delete", "request", "open", "rglob", "glob",
    "read_text", "read_bytes", "socket"
  }

  const HTTP_VERBS := {"get", "post", "put", "patch", "delete", "request"}

  function StripAttributes(a: Ast): Ast {
    if a.Attribute? then StripAttributes(a.value) else a
  }

  function StripCalls(a: Ast): Ast {
    if a.Call? then StripCalls(a.func) else a
  }

  /** `_call_root_name`. */
  function RootName(a: Ast): Option<string> {
    var root := StripCalls(StripAttributes(a));
    if root.Name? then Some(root.id) else None
  }

  /** `_is_io_call`: why this node counts as I/O. */
  function IoReason(node: Ast): Option<string> {
    if !node.Call? then None
    else
      match node.func
      case Name(id) => if id == "open" then Some("open(...)") else None
      case Attribute(value, attr) =>
        var root := RootName(value);
        if attr !in IO_CALL_NAMES then None
        else if attr == "run" && root != Some("subprocess") then None
        else if attr in HTTP_VERBS && root !in {Some("httpx"), Some("requests")} then None
        else Some((if root.Some? && root.value != "" then root.value else "?") + "." + attr + "(...)")
      case _ => None
  }

  ghost predicate HasDirectIo(body: Ast) {
    exists node :: Within(node, body) && IoReason(node).Some?
  }

  /** The reason of the first I/O call among some nodes. */
  function FirstReason(nodes: seq<Ast>): Option<string> {
    if nodes == [] then None
    else
      var before := FirstReason(nodes[..|nodes| - 1]);
      if before.Some? then before else IoReason(nodes[|nodes| - 1])
  }

  lemma {:induction false} FirstReasonStays(nodes: seq<Ast>, n: nat)
    requires n <= |nodes| && FirstReason(nodes[..n]).Some?
    ensures FirstReason(nodes) == FirstReason(nodes[..n])
  {
    if n < |nodes| {
      assert nodes[..|nodes| - 1][..n] == nodes[..n];
      FirstReasonStays(nodes[..|nodes| - 1], n);
    } else {
      assert nodes[..n] == nodes;
    }
  }

  lemma NoReason()
    ensures FirstReason([]) == None
  {
  }

  lemma FirstReasonNext(nodes: seq<Ast>, i: nat)
    requires i < |nodes|
    ensures FirstReason(nodes[..i + 1]) ==
            if FirstReason(nodes[..i]).Some? then FirstReason(nodes[..i]) else IoReason(nodes[i])
  {
    assert nodes[..i + 1][..i] == nodes[..i];
  }

  /** `_direct_io_reason`: the first I/O call of the walk. */
  method DirectIoReason(body: Ast) returns (reason: Option<string>)
    ensures reason == FirstReason(Walk([body]))
    ensures reason.Some? <==> HasDirectIo(body)
  {
    hide Walk;
    hide Within;
    hide IoReason;
    hide FirstReason;
    NoReason();
    var nodes := Walk([body]);
    for i := 0 to |nodes|
      invariant FirstReason(nodes[..i]).None?
      invariant forall k :: 0 <= k < i ==> IoReason(nodes[k]).None?
    {
      var found := IoReason(nodes[i]);
      FirstReasonNext(nodes, i);
      if found.Some? {
        FirstReasonStays(nodes, i + 1);
        WalkOfOne(body, nodes[i]);
        return found;
      }
    }
    assert nodes[..|nodes|] == nodes;
    forall node | Within(node, body) ensures IoReason(node).None? {
      WalkOfOne(body, node);
    }
    return None;
  }

  // ---------------------------------------------------------------- calls

  datatype Callee = SelfCall(name: string) | BareCall(name: string)

  predicate IsSelfCall(node: Ast) {
    node.Call? && node.func.Attribute? && node.func.value == Name("self")
  }

  predicate IsBareCall(node: Ast) {
    node.Call? && node.func.Name?
  }

  /** Whether `body` contains a call of this form. */
  ghost predicate Calls(body: Ast, callee: Callee) {
    match callee
    case SelfCall(name) => exists node :: Within(node, body) && IsSelfCall(node) && node.func.attr == name
    case BareCall(name) => exists node :: Within(node, body) && IsBareCall(node) && node.func.id == name
  }

  /** `_self_method_calls`. */
  method SelfMethodCalls(body: Ast) returns (callees: set<Callee>)
    ensures forall c :: c in callees <==> c.SelfCall? && Calls(body, c)
  {
    var nodes := Walk([body]);
    callees := {};
    for i := 0 to |nodes|
      invariant forall c :: c in callees <==> exists k :: 0 <= k < i && IsSelfCall(nodes[k]) && c == SelfCall(nodes[k].func.attr)
    {
      if IsSelfCall(nodes[i]) {
        callees := callees + {SelfCall(nodes[i].func.attr)};
      }
    }
    forall c ensures c in callees <==> c.SelfCall? && Calls(body, c) {
      if c in callees {
        var k :| 0 <= k < |nodes| && IsSelfCall(nodes[k]) && c == SelfCall(nodes[k].func.attr);
        WalkOfOne(body, nodes[k]);
      }
      if c.SelfCall? && Calls(body, c) {
        var node :| Within(node, body) && IsSelfCall(node) && node.func.attr == c.name;
        WalkOfOne(body, node);
      }
    }
  }

  /** `_bare_function_calls`. */
  method BareFunctionCalls(body: Ast) returns (callees: set<Callee>)
    ensures forall c :: c in callees <==> c.BareCall? && Calls(body, c)
  {
    var nodes := Walk([body]);
    callees := {};
    for i := 0 to |nodes|
      invariant forall c :: c in callees <==> exists k :: 0 <= k < i && IsBareCall(nodes[k]) && c == BareCall(nodes[k].func.id)
    {
      if IsBareCall(nodes[i]) {
        callees := callees + {BareCall(nodes[i].func.id)};
      }
    }
    forall c ensures c in callees <==> c.BareCall? && Calls(body, c) {
      if c in callees {
        var k :| 0 <= k < |nodes| && IsBareCall(nodes[k]) && c == BareCall(nodes[k].func.id);
        WalkOfOne(body, nodes[k]);
      }
      if c.BareCall? && Calls(body, c) {
        var node :| Within(node, body) && IsBareCall(node) && node.func.id == c.name;
        WalkOfOne(body, node);
      }
    }
  }

  // ---------------------------------------------------------------- call chains

  /** A function definition; `node` is the identity `is` compares. */
  datatype Definition = Definition(node: nat, body: Ast)

  datatype Source = Source(observe: Definition, methods: map<string, Definition>, functions: map<string, Definition>)

  /** One identity, one definition. */
  predicate Coherent(p: Source) {
    forall name :: name in p.methods && p.methods[name].node == p.observe.node ==> p.methods[name] == p.observe
  }

  function Resolve(p: Source, c: Callee): Option<Definition> {
    match c
    case SelfCall(name) => if name in p.methods then Some(p.methods[name]) else None
    case BareCall(name) => if name in p.functions then Some(p.functions[name]) else None
  }

  function Resolvable(p: Source): set<Callee> {
    (set name | name in p.methods :: SelfCall(name)) + (set name | name in p.functions :: BareCall(name))
  }

  /** The definition a chain of calls from `observe` ends in, when every call is there and resolves. */
  ghost function EndOf(p: Source, chain: seq<Callee>): Option<Definition> {
    if chain == [] then Some(p.observe)
    else
      var before, last := EndOf(p, chain[..|chain| - 1]), chain[|chain| - 1];
      if before.Some? && Calls(before.value.body, last) then Resolve(p, last) else None
  }

  ghost predicate ReachesIo(p: Source, chain: seq<Callee>) {
    EndOf(p, chain).Some? && HasDirectIo(EndOf(p, chain).value.body)
  }

  function CallText(c: Callee): string {
    match c
    case SelfCall(name) => "self." + name + "()"
    case BareCall(name) => name + "()"
  }

  function Label(chain: seq<Callee>): (text: string)
    ensures |text| >= 9 && (text == "observe()" <==> chain == [])
  {
    if chain == [] then "observe()" else Label(chain[..|chain| - 1]) + " -> " + CallText(chain[|chain| - 1])
  }

  /** What is reported for a chain that ends in I/O. */
  function Report(chain: seq<Callee>, reason: string): string {
    if chain == [] then reason else Label(chain) + " -> " + reason
  }

  lemma ChainSnoc(p: Source, chain: seq<Callee>, c: Callee)
    requires EndOf(p, chain).Some? && Calls(EndOf(p, chain).value.body, c)
    ensures EndOf(p, chain + [c]) == Resolve(p, c)
    ensures Label(chain + [c]) == Label(chain) + " -> " + CallText(c)
  {
    assert (chain + [c])[..|chain|] == chain;
  }

  // ---------------------------------------------------------------- the search

  /** A definition that was queued, with the chain it was reached by. */
  datatype Entry = Entry(definition: Definition, chain: seq<Callee>)

  function ItemOf(e: Entry): (Definition, string) {
    (e.definition, Label(e.chain))
  }

  /** `log` is everything queued so far, in order. */
  ghost predicate Logged(p: Source, log: seq<Entry>) {
    && log != [] && log[0] == Entry(p.observe, [])
    && (forall i :: 0 <= i < |log| ==> EndOf(p, log[i].chain) == Some(log[i].definition))
    && (forall i, j :: 0 <= i < j < |log| ==> |log[i].chain| <= |log[j].chain|)
  }

  ghost predicate HasEntry(log: seq<Entry>, d: Definition, length: nat) {
    exists j :: 0 <= j < |log| && log[j].definition == d && |log[j].chain| <= length
  }

  ghost predicate Covers(p: Source, log: seq<Entry>, entry: Entry, c: Callee) {
    Resolve(p, c).Some? ==> HasEntry(log, Resolve(p, c).value, |entry.chain| + 1)
  }

  ghost predicate Expanded(p: Source, log: seq<Entry>, entry: Entry) {
    && !HasDirectIo(entry.definition.body)
    && forall c :: Calls(entry.definition.body, c) ==> Covers(p, log, entry, c)
  }

  ghost predicate VisitedIn(p: Source, log: seq<Entry>, visited: set<Callee>, length: nat) {
    forall c :: c in visited && Resolve(p, c).Some? ==> HasEntry(log, Resolve(p, c).value, length)
  }

  ghost predicate SearchState(p: Source, log: seq<Entry>, head: nat, visited: set<Callee>) {
    && Logged(p, log) && head <= |log|
    && (forall i :: 0 <= i < head ==> Expanded(p, log, log[i]))
    && (head < |log| ==> forall i :: 0 <= i < |log| ==> |log[i].chain| <= |log[head].chain| + 1)
    && (head < |log| ==> VisitedIn(p, log, visited, |log[head].chain| + 1))
    && |log| <= 1 + |visited * Resolvable(p)|
  }

  lemma CoversMonotone(p: Source, log: seq<Entry>, added: Entry, entry: Entry, c: Callee)
    requires Covers(p, log, entry, c)
    ensures Covers(p, log + [added], entry, c)
  {
    if Resolve(p, c).Some? {
      HasEntryMonotone(log, added, Resolve(p, c).value, |entry.chain| + 1);
    }
  }

  lemma HasEntryMonotone(log: seq<Entry>, added: Entry, d: Definition, length: nat)
    requires HasEntry(log, d, length)
    ensures HasEntry(log + [added], d, length)
  {
    var j :| 0 <= j < |log| && log[j].definition == d && |log[j].chain| <= length;
    assert (log + [added])[j] == log[j];
  }

  /** Every chain no longer than the next one to be popped ends in a definition already queued. */
  lemma {:induction false} Reached(p: Source, log: seq<Entry>, head: nat, chain: seq<Callee>) returns (k: nat)
    requires Logged(p, log) && head <= |log|
    requires forall i :: 0 <= i < head ==> Expanded(p, log, log[i])
    requires EndOf(p, chain).Some?
    requires head < |log| ==> |chain| <= |log[head].chain|
    ensures k < |log| && log[k].definition == EndOf(p, chain).value && |log[k].chain| <= |chain|
    decreases |chain|
  {
    if chain == [] {
      k := 0;
    } else {
      var front, last := chain[..|chain| - 1], chain[|chain| - 1];
      var j := Reached(p, log, head, front);
      assert j < head;
      assert Covers(p, log, log[j], last);
      k :| 0 <= k < |log| && log[k].definition == EndOf(p, chain).value && |log[k].chain| <= |log[j].chain| + 1;
    }
  }

  /** While the head of the queue is being looked at, every shorter chain has been found free of I/O. */
  lemma NoShorterChain(p: Source, log: seq<Entry>, head: nat, visited: set<Callee>, chain: seq<Callee>)
    requires SearchState(p, log, head, visited) && ReachesIo(p, chain)
    ensures head < |log| && |log[head].chain| <= |chain|
  {
    if head == |log| || |chain| < |log[head].chain| {
      var k := Reached(p, log, head, chain);
    }
  }

  ghost predicate QueueIs(queue: seq<(Definition, string)>, log: seq<Entry>, head: nat)
    requires head <= |log|
  {
    |queue| == |log| - head && forall i :: 0 <= i < |queue| ==> queue[i] == ItemOf(log[head + i])
  }

  /** Marking a callee that is resolved and queued, or that the search skips. */
  lemma MarkOnly(p: Source, log: seq<Entry>, head: nat, visited: set<Callee>, c: Callee)
    requires SearchState(p, log, head, visited) && head < |log|
    requires Resolve(p, c).Some? ==> Resolve(p, c).value == p.observe
    ensures SearchState(p, log, head, visited + {c})
    ensures Covers(p, log, log[head], c)
  {
    assert HasEntry(log, p.observe, |log[head].chain| + 1) by {
      assert log[0].definition == p.observe;
    }
    SubsetSize(visited * Resolvable(p), (visited + {c}) * Resolvable(p));
  }

  lemma ExpandedMonotone(p: Source, log: seq<Entry>, added: Entry, entry: Entry)
    requires Expanded(p, log, entry)
    ensures Expanded(p, log + [added], entry)
  {
    hide Calls;
    hide HasDirectIo;
    forall c | Calls(entry.definition.body, c) ensures Covers(p, log + [added], entry, c) {
      CoversMonotone(p, log, added, entry, c);
    }
  }

  lemma LoggedSnoc(p: Source, log: seq<Entry>, head: nat, c: Callee)
    requires Logged(p, log) && head < |log|
    requires Calls(log[head].definition.body, c) && Resolve(p, c).Some?
    requires forall i :: 0 <= i < |log| ==> |log[i].chain| <= |log[head].chain| + 1
    ensures Logged(p, log + [Entry(Resolve(p, c).value, log[head].chain + [c])])
  {
    hide Calls;
    hide EndOf;
    ChainSnoc(p, log[head].chain, c);
  }

  lemma VisitedSnoc(p: Source, log: seq<Entry>, added: Entry, visited: set<Callee>, c: Callee, length: nat)
    requires VisitedIn(p, log, visited, length) && Resolve(p, c) == Some(added.definition) && |added.chain| <= length
    ensures VisitedIn(p, log + [added], visited + {c}, length)
  {
    var longer := log + [added];
    assert longer[|log|] == added;
    forall d | d in visited + {c} && Resolve(p, d).Some? ensures HasEntry(longer, Resolve(p, d).value, length) {
      if d in visited {
        HasEntryMonotone(log, added, Resolve(p, d).value, length);
      }
    }
  }

  lemma Enqueue(p: Source, log: seq<Entry>, head: nat, visited: set<Callee>, c: Callee)
    requires SearchState(p, log, head, visited) && head < |log| && c !in visited
    requires Calls(log[head].definition.body, c) && Resolve(p, c).Some?
    ensures SearchState(p, log + [Entry(Resolve(p, c).value, log[head].chain + [c])], head, visited + {c})
    ensures Covers(p, log + [Entry(Resolve(p, c).value, log[head].chain + [c])], log[head], c)
  {
    hide Calls;
    hide Expanded;
    hide EndOf;
    hide Logged;
    hide HasEntry;
    hide VisitedIn;
    var added := Entry(Resolve(p, c).value, log[head].chain + [c]);
    var longer := log + [added];
    LoggedSnoc(p, log, head, c);
    VisitedSnoc(p, log, added, visited, c, |log[head].chain| + 1);
    AddedCovers(p, log, head, c);
    forall i | 0 <= i < head ensures Expanded(p, longer, longer[i]) {
      ExpandedMonotone(p, log, added, log[i]);
    }
    VisitedSize(p, visited, c);
  }

  lemma AddedCovers(p: Source, log: seq<Entry>, head: nat, c: Callee)
    requires head < |log| && Resolve(p, c).Some?
    ensures Covers(p, log + [Entry(Resolve(p, c).value, log[head].chain + [c])], log[head], c)
  {
    assert (log + [Entry(Resolve(p, c).value, log[head].chain + [c])])[|log|].definition == Resolve(p, c).value;
  }

  lemma VisitedSize(p: Source, visited: set<Callee>, c: Callee)
    requires c !in visited && Resolve(p, c).Some?
    ensures |(visited + {c}) * Resolvable(p)| == |visited * Resolvable(p)| + 1
  {
    assert c in Resolvable(p);
    assert (visited + {c}) * Resolvable(p) == visited * Resolvable(p) + {c};
  }

  lemma StateFacts(p: Source, log: seq<Entry>, head: nat, visited: set<Callee>)
    requires SearchState(p, log, head, visited)
    ensures head <= |log| <= 1 + |Resolvable(p)|
    ensures head < |log| ==> EndOf(p, log[head].chain) == Some(log[head].definition)
  {
    SubsetSize(visited * Resolvable(p), Resolvable(p));
  }

  /** A queue item for a callee that resolves, under the label of the chain that reaches it. */
  ghost predicate NewlyFound(p: Source, callees: set<Callee>, text: string, item: (Definition, string)) {
    exists c :: c in callees && Resolve(p, c) == Some(item.0) && item.1 == text + " -> " + CallText(c)
  }

  lemma ResolvedIsNew(p: Source, callees: set<Callee>, text: string, c: Callee)
    requires c in callees && Resolve(p, c).Some?
    ensures NewlyFound(p, callees, text, (Resolve(p, c).value, text + " -> " + CallText(c)))
  {
  }

  /** One of the two loops over the calls of a body: every callee not seen yet is marked and, if it resolves, queued. */
  method Follow(p: Source, callees: set<Callee>, text: string, visited: set<Callee>, ghost log: seq<Entry>, ghost head: nat)
    returns (found: seq<(Definition, string)>, visited': set<Callee>, ghost entries: seq<Entry>)
    requires Coherent(p) && SearchState(p, log, head, visited) && head < |log| && text == Label(log[head].chain)
    requires forall c :: c in callees ==> Calls(log[head].definition.body, c)
    ensures visited' == visited + callees
    ensures forall i :: 0 <= i < |found| ==> NewlyFound(p, callees - visited, text, found[i])
    ensures SearchState(p, log + entries, head, visited')
    ensures QueueIs(found, entries, 0)
    ensures forall c :: c in callees ==> Covers(p, log + entries, log[head], c)
    ensures forall c :: Covers(p, log, log[head], c) ==> Covers(p, log + entries, log[head], c)
  {
    hide Calls;
    hide Covers;
    hide SearchState;
    hide NewlyFound;
    hide Label;
    var remaining := callees;
    found, visited', entries := [], visited, [];
    ghost var all, entry := log, log[head];
    while remaining != {}
      invariant all == log + entries && head < |log| && remaining <= callees
      invariant visited' == visited + (callees - remaining)
      invariant forall i :: 0 <= i < |found| ==> NewlyFound(p, callees - visited, text, found[i])
      invariant SearchState(p, all, head, visited') && all[head] == entry
      invariant QueueIs(found, entries, 0)
      invariant forall c :: c in callees - remaining ==> Covers(p, all, entry, c)
      invariant forall c :: Covers(p, log, entry, c) ==> Covers(p, all, entry, c)
    {
      var callee :| callee in remaining;
      remaining := remaining - {callee};
      var target := Resolve(p, callee);
      if callee in visited' {
        SeenIsCovered(p, all, head, visited', callee);
        continue;
      }
      if target.None? || (callee.SelfCall? && target.value.node == p.observe.node) {
        MarkOnly(p, all, head, visited', callee);
        visited' := visited' + {callee};
        continue;
      }
      ghost var added := Entry(target.value, entry.chain + [callee]);
      Enqueue(p, all, head, visited', callee);
      LabelSnoc(entry.chain, callee);
      ResolvedIsNew(p, callees - visited, text, callee);
      forall c | Covers(p, all, entry, c) ensures Covers(p, all + [added], entry, c) {
        CoversMonotone(p, all, added, entry, c);
      }
      visited' := visited' + {callee};
      found := found + [(target.value, text + " -> " + CallText(callee))];
      entries := entries + [added];
      assert log + entries == all + [added];
      all := all + [added];
    }
  }

  lemma InitialState(p: Source)
    ensures SearchState(p, [Entry(p.observe, [])], 0, {})
    ensures QueueIs([(p.observe, "observe()")], [Entry(p.observe, [])], 0)
  {
  }

  lemma LabelSnoc(chain: seq<Callee>, c: Callee)
    ensures Label(chain + [c]) == Label(chain) + " -> " + CallText(c)
  {
    assert (chain + [c])[..|chain|] == chain;
  }

  lemma SeenIsCovered(p: Source, log: seq<Entry>, head: nat, visited: set<Callee>, c: Callee)
    requires SearchState(p, log, head, visited) && head < |log| && c in visited
    ensures Covers(p, log, log[head], c)
  {
  }

  lemma Advance(p: Source, log: seq<Entry>, head: nat, visited: set<Callee>)
    requires SearchState(p, log, head, visited) && head < |log| && Expanded(p, log, log[head])
    ensures SearchState(p, log, head + 1, visited)
  {
    if head + 1 < |log| {
      assert |log[head].chain| <= |log[head + 1].chain|;
      forall c | c in visited && Resolve(p, c).Some?
        ensures HasEntry(log, Resolve(p, c).value, |log[head + 1].chain| + 1)
      {
        var j :| 0 <= j < |log| && log[j].definition == Resolve(p, c).value && |log[j].chain| <= |log[head].chain| + 1;
      }
    }
  }

  /** `found` is what is reported for a shortest chain of calls that ends in direct I/O. */
  ghost predicate ShortestFinding(p: Source, found: string, chain: seq<Callee>) {
    && ReachesIo(p, chain)
    && (forall other :: ReachesIo(p, other) ==> |chain| <= |other|)
    && FirstReason(Walk([EndOf(p, chain).value.body])).Some?
    && found == Report(chain, FirstReason(Walk([EndOf(p, chain).value.body])).value)
  }

  lemma FindingIsShortest(p: Source, log: seq<Entry>, head: nat, visited: set<Callee>, reason: string)
    requires SearchState(p, log, head, visited) && head < |log|
    requires HasDirectIo(log[head].definition.body) && FirstReason(Walk([log[head].definition.body])) == Some(reason)
    ensures ShortestFinding(p, Report(log[head].chain, reason), log[head].chain)
  {
    var chain := log[head].chain;
    assert ReachesIo(p, chain);
    forall other | ReachesIo(p, other) ensures |chain| <= |other| {
      NoShorterChain(p, log, head, visited, other);
    }
  }

  lemma QueueHead(queue: seq<(Definition, string)>, log: seq<Entry>, head: nat)
    requires head <= |log| && QueueIs(queue, log, head)
    ensures queue == [] ==> head == |log|
    ensures queue != [] ==> head < |log| && queue[0] == (log[head].definition, Label(log[head].chain)) &&
                            QueueIs(queue[1..], log, head + 1)
  {
  }

  lemma QueueNext(queue: seq<(Definition, string)>, log: seq<Entry>, head: nat,
                  found: seq<(Definition, string)>, entries: seq<Entry>)
    requires head <= |log| && QueueIs(queue, log, head) && QueueIs(found, entries, 0)
    ensures QueueIs(queue + found, log + entries, head)
  {
    hide ItemOf;
    var all, more := queue + found, log + entries;
    forall i | 0 <= i < |all| ensures all[i] == ItemOf(more[head + i]) {
      if i >= |queue| {
        assert all[i] == found[i - |queue|];
        assert more[head + i] == entries[i - |queue|];
      }
    }
  }

  lemma BothKindsCovered(p: Source, log: seq<Entry>, entry: Entry, self: set<Callee>, bare: set<Callee>)
    requires !HasDirectIo(entry.definition.body)
    requires forall c :: c in self <==> c.SelfCall? && Calls(entry.definition.body, c)
    requires forall c :: c in bare <==> c.BareCall? && Calls(entry.definition.body, c)
    requires forall c :: c in self + bare ==> Covers(p, log, entry, c)
    ensures Expanded(p, log, entry)
  {
  }

  /**
   `_method_has_io`: I/O is reported exactly when a chain of resolved calls from `observe` ends in a
   body that calls I/O directly, and the chain reported is a shortest one. `pops` bounds the bodies
   looked at, so mutually recursive helpers do not keep the search going.
   */
  method MethodHasIo(p: Source) returns (found: Option<string>, ghost chain: seq<Callee>, ghost pops: nat)
    requires Coherent(p)
    ensures found.Some? <==> exists c :: ReachesIo(p, c)
    ensures found.Some? ==> ShortestFinding(p, found.value, chain)
    ensures pops <= 1 + |Resolvable(p)|
  {
    hide Calls;
    hide Covers;
    hide SearchState;
    hide EndOf;
    hide HasDirectIo;
    hide ShortestFinding;
    hide Expanded;
    hide Resolvable;
    hide QueueIs;
    hide Walk;
    hide FirstReason;
    InitialState(p);
    var visited: set<Callee> := {};
    var queue := [(p.observe, "observe()")];
    ghost var log, head := [Entry(p.observe, [])], 0;
    chain, pops := [], 0;
    while queue != []
      invariant SearchState(p, log, head, visited) && head <= |log| && QueueIs(queue, log, head) && pops == head
      decreases 1 + |Resolvable(p)| - head
    {
      StateFacts(p, log, head, visited);
      QueueHead(queue, log, head);
      var (body, text) := queue[0];
      queue := queue[1..];
      ghost var entry := log[head];
      pops := pops + 1;
      var reason := DirectIoReason(body.body);
      if reason.Some? {
        FindingIsShortest(p, log, head, visited, reason.value);
        chain := entry.chain;
        return Some(if text != "observe()" then text + " -> " + reason.value else reason.value), chain, pops;
      }
      var selfCallees := SelfMethodCalls(body.body);
      var found;
      ghost var entries;
      found, visited, entries := Follow(p, selfCallees, text, visited, log, head);
      QueueNext(queue, log, head + 1, found, entries);
      queue, log := queue + found, log + entries;
      var bareCallees := BareFunctionCalls(body.body);
      found, visited, entries := Follow(p, bareCallees, text, visited, log, head);
      QueueNext(queue, log, head + 1, found, entries);
      queue, log := queue + found, log + entries;
      BothKindsCovered(p, log, entry, selfCallees, bareCallees);
      Advance(p, log, head, visited);
      head := head + 1;
    }
    QueueHead(queue, log, head);
    StateFacts(p, log, head, visited);
    forall c ensures !ReachesIo(p, c) {
      if ReachesIo(p, c) {
        NoShorterChain(p, log, head, visited, c);
      }
    }
    return None, [], pops;
  }
}
