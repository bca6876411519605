/** The policy execution graph check: a three-colour depth-first search with early exits,
    and the contract validator that calls it. */
module ExecutionGraph {
  import opened Outcomes

  datatype Role =
    | Encoder | VisionEncoder | LanguageEncoder | Tokenizer | DenoiseStep | FlowStep
    | ActionHead | Decoder | TransitionModel | ValueHead | RecurrentCell

  datatype GraphNode = GraphNode(name: string, role: Role)

  datatype Edge = Edge(source: string, target: string)

  // ---------------------------------------------------------------- reference notions

  function Names(nodes: seq<GraphNode>): set<string> {
    set n | n in nodes :: n.name
  }

  /** Every edge endpoint is a declared node. */
  ghost predicate Declared(nodes: seq<GraphNode>, edges: seq<Edge>) {
    forall e :: e in edges ==> e.source in Names(nodes) && e.target in Names(nodes)
  }

  ghost predicate IsWalk(edges: seq<Edge>, p: seq<string>) {
    |p| > 0 && forall i :: 0 <= i < |p| - 1 ==> Edge(p[i], p[i + 1]) in edges
  }

  /** A closed walk of at least one edge; a self-loop `a -> a` is the walk `[a, a]`. */
  ghost predicate IsCycle(edges: seq<Edge>, c: seq<string>) {
    |c| >= 2 && c[0] == c[|c| - 1] && IsWalk(edges, c)
  }

  ghost predicate HasCycle(edges: seq<Edge>) {
    exists c :: IsCycle(edges, c)
  }

  ghost predicate NoDuplicates<T(!new)>(s: seq<T>) {
    forall i, j :: 0 <= i < j < |s| ==> s[i] != s[j]
  }

  /** A finish order: each declared node once, and every edge points to an earlier position. */
  ghost predicate IsFinishOrder(nodes: seq<GraphNode>, edges: seq<Edge>, order: seq<string>) {
    && NoDuplicates(order)
    && (set u | u in order) == Names(nodes)
    && forall i, e :: 0 <= i < |order| && e in edges && e.source == order[i] ==> e.target in order[..i]
  }

  lemma {:induction false} WalkGoesBack(edges: seq<Edge>, order: seq<string>, p: seq<string>, i: nat)
    requires forall k, e :: 0 <= k < |order| && e in edges && e.source == order[k] ==> e.target in order[..k]
    requires IsWalk(edges, p) && |p| >= 2
    requires i < |order| && p[0] == order[i]
    ensures p[|p| - 1] in order[..i]
    decreases |p|
  {
    var e := Edge(p[0], p[1]);
    assert e in edges && e.target in order[..i];
    if |p| > 2 {
      var k :| 0 <= k < i && order[k] == p[1];
      var tail := p[1..];
      assert forall j :: 0 <= j < |tail| - 1 ==> Edge(tail[j], tail[j + 1]) == Edge(p[j + 1], p[(j + 1) + 1]);
      WalkGoesBack(edges, order, tail, k);
      assert order[..k] <= order[..i];
    }
  }

  /** A finish order rules out every directed cycle. */
  lemma FinishOrderExcludesCycles(nodes: seq<GraphNode>, edges: seq<Edge>, order: seq<string>)
    requires Declared(nodes, edges) && IsFinishOrder(nodes, edges, order)
    ensures !HasCycle(edges)
  {
    forall c | IsCycle(edges, c)
      ensures false
    {
      var e := Edge(c[0], c[1]);
      assert e in edges;
      assert c[0] in (set u | u in order);
      var i :| 0 <= i < |order| && order[i] == c[0];
      WalkGoesBack(edges, order, c, i);
      assert false;
    }
  }

  // ---------------------------------------------------------------- the search

  datatype Color = Grey | Black

  type Adjacency = map<string, seq<string>>

  ghost predicate Represents(adj: Adjacency, nodes: seq<GraphNode>, edges: seq<Edge>) {
    && adj.Keys == Names(nodes)
    && forall u, v :: u in adj ==> (v in adj[u] <==> Edge(u, v) in edges)
  }

  method BuildAdjacency(nodes: seq<GraphNode>, edges: seq<Edge>) returns (adj: Adjacency)
    requires Declared(nodes, edges)
    ensures Represents(adj, nodes, edges)
  {
    adj := map u | u in Names(nodes) :: [];
    for k := 0 to |edges|
      invariant Represents(adj, nodes, edges[..k])
    {
      var e := edges[k];
      assert e in edges;
      adj := adj[e.source := adj[e.source] + [e.target]];
      assert edges[..k + 1] == edges[..k] + [e];
    }
    assert edges[..|edges|] == edges;
  }

  /** The search invariant. `stack` holds the grey nodes in call order and is a walk;
      `finished` holds the black nodes, each after all its successors. */
  ghost predicate Consistent(adj: Adjacency, color: map<string, Color>, stack: seq<string>, finished: seq<string>) {
    && color.Keys <= adj.Keys
    && (forall u :: u in stack <==> u in color && color[u] == Grey)
    && (forall u :: u in finished <==> u in color && color[u] == Black)
    && (forall i :: 0 <= i < |stack| - 1 ==> stack[i] in adj && stack[i + 1] in adj[stack[i]])
    && NoDuplicates(finished)
    && (forall i, v :: 0 <= i < |finished| && finished[i] in adj && v in adj[finished[i]] ==> v in finished[..i])
  }

  ghost predicate ClosedWalk(adj: Adjacency, c: seq<string>) {
    |c| >= 2 && c[0] == c[|c| - 1] && forall i :: 0 <= i < |c| - 1 ==> c[i] in adj && c[i + 1] in adj[c[i]]
  }

  lemma GreyStep(adj: Adjacency, color: map<string, Color>, stack: seq<string>, finished: seq<string>, u: string)
    requires Consistent(adj, color, stack, finished)
    requires u in adj && u !in color && (stack != [] ==> u in adj[stack[|stack| - 1]])
    ensures Consistent(adj, color[u := Grey], stack + [u], finished)
  {
    var stack' := stack + [u];
    forall i | 0 <= i < |stack'| - 1
      ensures stack'[i] in adj && stack'[i + 1] in adj[stack'[i]]
    {
      assert stack'[i] == stack[i] && stack[i] in stack;
    }
  }

  lemma BlackStep(adj: Adjacency, color: map<string, Color>, stack: seq<string>, finished: seq<string>, u: string)
    requires Consistent(adj, color, stack + [u], finished)
    requires u in adj && u !in stack
    requires forall v :: v in adj[u] ==> v in finished
    ensures Consistent(adj, color[u := Black], stack, finished + [u])
  {
    var grown := finished + [u];
    assert u in stack + [u];
    assert forall i :: 0 <= i < |stack| ==> (stack + [u])[i] == stack[i];
    forall i, v | 0 <= i < |grown| && grown[i] in adj && v in adj[grown[i]]
      ensures v in grown[..i]
    {
      assert grown[..i] == finished[..i];
    }
  }

  lemma GreyNodeClosesCycle(adj: Adjacency, stack: seq<string>, u: string, v: string) returns (cycle: seq<string>)
    requires forall i :: 0 <= i < |stack| - 1 ==> stack[i] in adj && stack[i + 1] in adj[stack[i]]
    requires stack != [] && stack[|stack| - 1] == u && u in adj && v in adj[u]
    requires v in stack
    ensures ClosedWalk(adj, cycle)
  {
    var k :| 0 <= k < |stack| && stack[k] == v;
    cycle := stack[k..] + [v];
    forall j | 0 <= j < |cycle| - 1
      ensures cycle[j] in adj && cycle[j + 1] in adj[cycle[j]]
    {
      assert cycle[j] == stack[k + j];
      if j < |cycle| - 2 {
        assert cycle[j + 1] == stack[(k + j) + 1];
      }
    }
  }

  /** The dictionaries the recursive closure `visit` shares, with their ghost history. */
  class DepthFirstSearch {
    const adj: Adjacency
    var color: map<string, Color>
    ghost var stack: seq<string>
    ghost var finished: seq<string>

    ghost predicate Valid()
      reads this
    {
      && (forall u, v :: u in adj && v in adj[u] ==> v in adj)
      && Consistent(adj, color, stack, finished)
    }

    constructor (adj: Adjacency)
      requires forall u, v :: u in adj && v in adj[u] ==> v in adj
      ensures Valid() && this.adj == adj && color == map[] && stack == [] && finished == []
    {
      this.adj := adj;
      color := map[];
      stack, finished := [], [];
    }

    /** Explores `u`. Success blackens `u` after everything it reaches and restores the
        stack; failure exhibits a closed walk through grey nodes. */
    method Visit(u: string) returns (ok: bool, ghost cycle: seq<string>)
      requires Valid() && u in adj && u !in color
      requires stack != [] ==> u in adj[stack[|stack| - 1]]
      modifies this
      ensures old(color).Keys <= color.Keys
      ensures ok ==> Valid() && stack == old(stack) && u in finished && old(finished) <= finished
      ensures !ok ==> ClosedWalk(adj, cycle)
      decreases adj.Keys - color.Keys
    {
      GreyStep(adj, color, stack, finished, u);
      color := color[u := Grey];
      stack := stack + [u];
      var i := 0;
      while i < |adj[u]|
        invariant 0 <= i <= |adj[u]|
        invariant Valid()
        invariant stack == old(stack) + [u]
        invariant old(finished) <= finished
        invariant old(color).Keys + {u} <= color.Keys
        invariant forall k :: 0 <= k < i ==> adj[u][k] in finished
      {
        var v := adj[u][i];
        if v in color && color[v] == Grey {
          cycle := GreyNodeClosesCycle(adj, stack, u, v);
          return false, cycle;
        }
        if !(v in color && color[v] == Black) {
          var found;
          found, cycle := Visit(v);
          if !found {
            return false, cycle;
          }
        }
        i := i + 1;
      }
      BlackStep(adj, color, old(stack), finished, u);
      color := color[u := Black];
      stack := old(stack);
      finished := finished + [u];
      return true, [];
    }
  }

  /** The source's `_acyclic`. It accepts exactly the graphs whose edges join declared nodes
      and that have no directed cycle. Acceptance comes with the finish order, rejection of a
      graph without dangling edges with an actual cycle. */
  method Acyclic(nodes: seq<GraphNode>, edges: seq<Edge>)
    returns (ok: bool, ghost order: seq<string>, ghost cycle: seq<string>)
    ensures ok <==> Declared(nodes, edges) && !HasCycle(edges)
    ensures ok ==> IsFinishOrder(nodes, edges, order)
    ensures !ok && Declared(nodes, edges) ==> IsCycle(edges, cycle)
  {
    order, cycle := [], [];
    var names := Names(nodes);
    if exists i :: 0 <= i < |edges| && (edges[i].source !in names || edges[i].target !in names) {
      return false, order, cycle;
    }
    var adj := BuildAdjacency(nodes, edges);
    forall u, v | u in adj && v in adj[u]
      ensures v in adj
    {
      var e := Edge(u, v);
      assert e in edges && e.target in names;
    }
    var search := new DepthFirstSearch(adj);
    for k := 0 to |nodes|
      invariant search.Valid() && search.stack == [] && search.adj == adj
      invariant forall j :: 0 <= j < k ==> nodes[j].name in search.finished
    {
      var u := nodes[k].name;
      if !(u in search.color && search.color[u] == Black) {
        var found;
        found, cycle := search.Visit(u);
        if !found {
          assert IsCycle(edges, cycle);
          return false, order, cycle;
        }
      }
    }
    order := search.finished;
    FinishOrderIsComplete(nodes, edges, adj, order);
    FinishOrderExcludesCycles(nodes, edges, order);
    return true, order, cycle;
  }

  lemma FinishOrderIsComplete(nodes: seq<GraphNode>, edges: seq<Edge>, adj: Adjacency, order: seq<string>)
    requires Represents(adj, nodes, edges) && NoDuplicates(order)
    requires forall j :: 0 <= j < |nodes| ==> nodes[j].name in order
    requires forall u :: u in order ==> u in adj
    requires forall i, v :: 0 <= i < |order| && v in adj[order[i]] ==> v in order[..i]
    ensures IsFinishOrder(nodes, edges, order)
  {
    forall i, e | 0 <= i < |order| && e in edges && e.source == order[i]
      ensures e.target in order[..i]
    {
      assert order[i] in order;
      assert e == Edge(order[i], e.target);
      assert e.target in adj[order[i]];
    }
  }

  // ---------------------------------------------------------------- the contract validator

  datatype ExecutionKind = SinglePass | IterativeSampler | VlaFlow | Recurrent | WorldModel

  datatype StateLifetime = NoState | PerEpisode | Persistent

  datatype Sampling = Sampling(algorithm: string, steps: int, scheduler: string)

  /** The fields of an execution contract that its semantic rules look at. */
  datatype ExecutionContract = ExecutionContract(
    kind: ExecutionKind,
    nodes: seq<GraphNode>,
    edges: seq<Edge>,
    sampling: Option<Sampling>,
    tokenizer: Option<string>,
    cacheLifetime: StateLifetime)

  datatype ContractError =
    | SchemaError
    | DuplicateNode
    | NotADag
    | SamplerWithoutSampling
    | SamplerWithoutSteps
    | SamplerWithoutStepNode
    | SinglePassMultiStep
    | VlaWithoutTokenizer
    | RecurrentWithoutCache

  /** What the JSON schema demands of these fields: non-empty strings and a positive step count. */
  predicate SchemaValid(c: ExecutionContract) {
    && (forall n :: n in c.nodes ==> n.name != "")
    && (forall e :: e in c.edges ==> e.source != "" && e.target != "")
    && (c.sampling.Some? ==>
          c.sampling.value.algorithm != "" && c.sampling.value.scheduler != "" && c.sampling.value.steps >= 1)
    && (c.tokenizer.Some? ==> c.tokenizer.value != "")
  }

  /** The text stands in one of the fields that must not be empty. */
  predicate HoldsText(c: ExecutionContract, text: string) {
    || (exists i :: 0 <= i < |c.nodes| && c.nodes[i].name == text)
    || (exists i :: 0 <= i < |c.edges| && (c.edges[i].source == text || c.edges[i].target == text))
    || (c.sampling.Some? && (c.sampling.value.algorithm == text || c.sampling.value.scheduler == text))
    || c.tokenizer == Some(text)
  }

  lemma SchemaMeaning(c: ExecutionContract)
    ensures SchemaValid(c) <==> !HoldsText(c, "") && (c.sampling.Some? ==> c.sampling.value.steps > 0)
  {
    forall i | 0 <= i < |c.nodes|
      ensures c.nodes[i] in c.nodes
    {
    }
    forall i | 0 <= i < |c.edges|
      ensures c.edges[i] in c.edges
    {
    }
  }

  /** When each error is due, in the contract's own terms. */
  ghost predicate Violates(c: ExecutionContract, e: ContractError) {
    if !SchemaValid(c) then e == SchemaError else
    match e
    case SchemaError => false
    case DuplicateNode => exists i, j :: 0 <= i < j < |c.nodes| && c.nodes[i].name == c.nodes[j].name
    case NotADag => !Declared(c.nodes, c.edges) || HasCycle(c.edges)
    case SamplerWithoutSampling => c.kind == IterativeSampler && c.sampling.None?
    case SamplerWithoutSteps => c.kind == IterativeSampler && c.sampling.Some? && c.sampling.value.steps < 1
    case SamplerWithoutStepNode =>
      c.kind == IterativeSampler && forall n :: n in c.nodes ==> n.role != DenoiseStep && n.role != FlowStep
    case SinglePassMultiStep => c.kind == SinglePass && c.sampling.Some? && c.sampling.value.steps > 1
    case VlaWithoutTokenizer => c.kind == VlaFlow && c.tokenizer.None?
    case RecurrentWithoutCache => c.kind == Recurrent && c.cacheLifetime == NoState
  }

  lemma NameTaken(nodes: seq<GraphNode>, name: string)
    ensures name in Names(nodes) <==> exists i :: 0 <= i < |nodes| && nodes[i].name == name
  {
    if name in Names(nodes) {
      var n :| n in nodes && n.name == name;
      var i :| 0 <= i < |nodes| && nodes[i] == n;
    } else {
      assert forall i :: 0 <= i < |nodes| ==> nodes[i] in nodes;
    }
  }

  /** `len(names) != len(set(names))` finds a repeated name. */
  lemma {:induction false} FewerNamesMeansDuplicate(nodes: seq<GraphNode>)
    ensures |Names(nodes)| <= |nodes|
    ensures |Names(nodes)| < |nodes| <==>
            exists i, j :: 0 <= i < j < |nodes| && nodes[i].name == nodes[j].name
  {
    if nodes == [] {
    } else {
      var k := |nodes| - 1;
      var init, last := nodes[..k], nodes[k];
      FewerNamesMeansDuplicate(init);
      assert nodes == init + [last];
      assert Names(nodes) == Names(init) + {last.name};
      NameTaken(init, last.name);
      assert forall i :: 0 <= i < k ==> nodes[i] == init[i];
    }
  }

  method ValidateExecutionContract(c: ExecutionContract) returns (errs: seq<ContractError>)
    ensures forall e :: e in errs <==> Violates(c, e)
  {
    if !SchemaValid(c) {
      return [SchemaError];
    }
    errs := [];
    FewerNamesMeansDuplicate(c.nodes);
    if |c.nodes| != |Names(c.nodes)| {
      errs := errs + [DuplicateNode];
    }
    var dag, _, _ := Acyclic(c.nodes, c.edges);
    if !dag {
      errs := errs + [NotADag];
    }
    if c.kind == IterativeSampler {
      if c.sampling.None? {
        errs := errs + [SamplerWithoutSampling];
      } else if c.sampling.value.steps < 1 {
        errs := errs + [SamplerWithoutSteps];
      }
      if !exists i :: 0 <= i < |c.nodes| && c.nodes[i].role in {DenoiseStep, FlowStep} {
        errs := errs + [SamplerWithoutStepNode];
      }
    }
    if c.kind == SinglePass && c.sampling.Some? && c.sampling.value.steps > 1 {
      errs := errs + [SinglePassMultiStep];
    }
    if c.kind == VlaFlow && c.tokenizer.None? {
      errs := errs + [VlaWithoutTokenizer];
    }
    if c.kind == Recurrent && c.cacheLifetime == NoState {
      errs := errs + [RecurrentWithoutCache];
    }
  }
}
