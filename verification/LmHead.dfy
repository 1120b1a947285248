/** Finding the initializer behind the last projection of a model by walking its graph backwards. */
module LmHead {
  import opened OnnxGraph
  import opened Wrappers
  import opened WeightNames

  type Producers = map<string, Node>
  type Shapes = set<seq<nat>>

  /** Which node makes each value; of two nodes that do, the later. */
  function ProducerMap(nodes: seq<Node>): Producers {
    if nodes == [] then map[]
    else
      var k := |nodes| - 1;
      ProducerMap(nodes[..k]) + map n | n in nodes[k].outputs :: nodes[k]
  }

  // ------------------------------------------------------------------------------- tracing one value

  predicate Candidate(name: string, inits: Scope, shapes: Shapes) {
    name in inits && inits[name].dims in shapes
  }

  /** Views and casts, which a value is traced through. */
  predicate View(node: Node) {
    node.op == "Cast" || node.op == "Identity" || node.op == "Transpose"
  }

  /** A value is traced from `v` to `w`. */
  predicate TraceStep(v: string, w: string, inits: Scope, producers: Producers) {
    v !in inits && v in producers && View(producers[v]) && w in producers[v].inputs
  }

  predicate TracePath(path: seq<string>, inits: Scope, producers: Producers) {
    |path| > 0 && forall k :: 0 <= k < |path| - 1 ==> TraceStep(path[k], path[k + 1], inits, producers)
  }

  /** `v` is `t`, a candidate, seen through views and casts. */
  ghost predicate Traces(v: string, t: string, inits: Scope, producers: Producers, shapes: Shapes) {
    exists path :: TracePath(path, inits, producers) && path[0] == v && path[|path| - 1] == t
      && Candidate(t, inits, shapes)
  }

  /** Views and casts never go round in a circle. */
  ghost predicate Ranked(producers: Producers, rank: string -> nat) {
    forall v :: v in producers && View(producers[v]) ==> forall w :: w in producers[v].inputs ==> rank(w) < rank(v)
  }

  /** `_find_initializer_from_value`; the empty name when there is none. */
  function FindInitializer(v: string, inits: Scope, producers: Producers, shapes: Shapes,
                           ghost rank: string -> nat): string
    requires Ranked(producers, rank)
    decreases rank(v), 1, 0
  {
    if v in inits then (if inits[v].dims in shapes then v else "")
    else if v !in producers || !View(producers[v]) then ""
    else FindAmong(producers[v].inputs, inits, producers, shapes, rank, rank(v))
  }

  /** The first of `values` that leads to an initializer. */
  function FindAmong(values: seq<string>, inits: Scope, producers: Producers, shapes: Shapes, ghost rank: string -> nat,
                     ghost bound: nat): string
    requires Ranked(producers, rank) && forall w :: w in values ==> rank(w) < bound
    decreases bound, 0, |values|
  {
    if values == [] then ""
    else
      var name := FindInitializer(values[0], inits, producers, shapes, rank);
      if name != "" then name else FindAmong(values[1..], inits, producers, shapes, rank, bound)
  }

  lemma TraceHead(v: string, w: string, t: string, inits: Scope, producers: Producers, shapes: Shapes)
    requires TraceStep(v, w, inits, producers) && Traces(w, t, inits, producers, shapes)
    ensures Traces(v, t, inits, producers, shapes)
  {
    var path :| TracePath(path, inits, producers) && path[0] == w && path[|path| - 1] == t;
    var longer := [v] + path;
    assert TracePath(longer, inits, producers) && longer[|longer| - 1] == t;
  }

  lemma TraceTail(v: string, t: string, inits: Scope, producers: Producers, shapes: Shapes) returns (w: string)
    requires Traces(v, t, inits, producers, shapes)
    ensures v == t || (TraceStep(v, w, inits, producers) && Traces(w, t, inits, producers, shapes))
  {
    var path :| TracePath(path, inits, producers) && path[0] == v && path[|path| - 1] == t;
    w := v;
    if |path| > 1 {
      w := path[1];
      assert TraceStep(path[0], path[1], inits, producers);
      var rest := path[1..];
      assert TracePath(rest, inits, producers) && rest[0] == w && rest[|rest| - 1] == t;
    }
  }

  /** The name that is found is one the value traces to, and when none is found there is none with a name. */
  ghost predicate Found(r: string, v: string, inits: Scope, producers: Producers, shapes: Shapes) {
    if r != "" then Traces(v, r, inits, producers, shapes)
    else forall t :: Traces(v, t, inits, producers, shapes) ==> t == ""
  }

  lemma {:induction false} FindInitializerTraces(v: string, inits: Scope, producers: Producers, shapes: Shapes,
                                                 rank: string -> nat)
    requires Ranked(producers, rank)
    ensures Found(FindInitializer(v, inits, producers, shapes, rank), v, inits, producers, shapes)
    decreases rank(v), 1, 0
  {
    var r := FindInitializer(v, inits, producers, shapes, rank);
    if v in inits && inits[v].dims in shapes {
      assert TracePath([v], inits, producers) && Candidate(v, inits, shapes);
    }
    if v !in inits && v in producers && View(producers[v]) {
      FindAmongTraces(producers[v].inputs, inits, producers, shapes, rank, rank(v));
      if r != "" {
        var w :| w in producers[v].inputs && Traces(w, r, inits, producers, shapes);
        TraceHead(v, w, r, inits, producers, shapes);
      }
    }
    forall t | r == "" && Traces(v, t, inits, producers, shapes)
      ensures t == ""
    {
      var w := TraceTail(v, t, inits, producers, shapes);
    }
  }

  lemma {:induction false} FindAmongTraces(values: seq<string>, inits: Scope, producers: Producers, shapes: Shapes,
                                           rank: string -> nat, bound: nat)
    requires Ranked(producers, rank) && forall w :: w in values ==> rank(w) < bound
    ensures var r := FindAmong(values, inits, producers, shapes, rank, bound);
      if r != "" then exists w :: w in values && Traces(w, r, inits, producers, shapes)
      else forall w, t :: w in values && Traces(w, t, inits, producers, shapes) ==> t == ""
    decreases bound, 0, |values|
  {
    if values != [] {
      FindInitializerTraces(values[0], inits, producers, shapes, rank);
      FindAmongTraces(values[1..], inits, producers, shapes, rank, bound);
      assert values == [values[0]] + values[1..];
    }
  }

  /** What is found does not depend on how the views are ranked. */
  lemma {:induction false} RankIrrelevant(v: string, inits: Scope, producers: Producers, shapes: Shapes,
                                          rank: string -> nat, rank': string -> nat)
    requires Ranked(producers, rank) && Ranked(producers, rank')
    ensures FindInitializer(v, inits, producers, shapes, rank) == FindInitializer(v, inits, producers, shapes, rank')
    decreases rank(v), 1, 0
  {
    if v !in inits && v in producers && View(producers[v]) {
      AmongIrrelevant(producers[v].inputs, inits, producers, shapes, rank, rank', rank(v), rank'(v));
    }
  }

  lemma {:induction false} AmongIrrelevant(values: seq<string>, inits: Scope, producers: Producers, shapes: Shapes,
                                           rank: string -> nat, rank': string -> nat, bound: nat, bound': nat)
    requires Ranked(producers, rank) && forall w :: w in values ==> rank(w) < bound
    requires Ranked(producers, rank') && forall w :: w in values ==> rank'(w) < bound'
    ensures FindAmong(values, inits, producers, shapes, rank, bound)
         == FindAmong(values, inits, producers, shapes, rank', bound')
    decreases bound, 0, |values|
  {
    if values != [] {
      RankIrrelevant(values[0], inits, producers, shapes, rank, rank');
      AmongIrrelevant(values[1..], inits, producers, shapes, rank, rank', bound, bound');
    }
  }

  // ---------------------------------------------------------------------------------------- the walk

  predicate Projection(node: Node) {
    node.op == "Gemm" || node.op == "MatMul"
  }

  predicate Passthrough(node: Node) {
    || node.op == "Cast" || node.op == "Identity" || node.op == "Reshape"
    || node.op == "Transpose" || node.op == "LogSoftmax"
  }

  function Without(names: seq<string>, inits: Scope): (r: seq<string>)
    ensures forall n :: n in r <==> n in names && n !in inits
  {
    if names == [] then []
    else if names[0] in inits then Without(names[1..], inits)
    else [names[0]] + Without(names[1..], inits)
  }

  /** The values the walk goes on with from `v`. */
  function Next(v: string, inits: Scope, producers: Producers): seq<string> {
    if v !in producers || Projection(producers[v]) then []
    else if Passthrough(producers[v]) then (if producers[v].inputs == [] then [] else producers[v].inputs[..1])
    else if producers[v].op == "Add" then Without(producers[v].inputs, inits)
    else []
  }

  predicate WalkPath(path: seq<string>, starts: seq<string>, inits: Scope, producers: Producers) {
    |path| > 0 && path[0] in starts && forall k :: 0 <= k < |path| - 1 ==>
      path[k + 1] in Next(path[k], inits, producers)
  }

  /** The walk can get from the outputs to `v`. */
  ghost predicate Reachable(v: string, starts: seq<string>, inits: Scope, producers: Producers) {
    exists path :: WalkPath(path, starts, inits, producers) && path[|path| - 1] == v
  }

  /** `v` is made by a projection one of whose later inputs traces to `t`. */
  ghost predicate HeadTrace(v: string, t: string, inits: Scope, producers: Producers, shapes: Shapes) {
    && v in producers && Projection(producers[v])
    && exists k :: 1 <= k < |producers[v].inputs| && Traces(producers[v].inputs[k], t, inits, producers, shapes)
  }

  /** The first name that one of `values` leads to. */
  function FirstNamed(values: seq<string>, inits: Scope, producers: Producers, shapes: Shapes,
                      ghost rank: string -> nat): string
    requires Ranked(producers, rank)
  {
    if values == [] then ""
    else
      var name := FindInitializer(values[0], inits, producers, shapes, rank);
      if name != "" then name else FirstNamed(values[1..], inits, producers, shapes, rank)
  }

  /** The weight of the projection that makes `v`, if one does. */
  function HeadName(v: string, inits: Scope, producers: Producers, shapes: Shapes, ghost rank: string -> nat): string
    requires Ranked(producers, rank)
  {
    if v in producers && Projection(producers[v]) && |producers[v].inputs| > 0 then
      FirstNamed(producers[v].inputs[1..], inits, producers, shapes, rank)
    else
      ""
  }

  /** The walk in full: from the last value of the list, depth first, each value once, to the first projection with
      a weight. */
  function WalkFrom(todo: seq<string>, seen: set<string>, starts: seq<string>, inits: Scope, producers: Producers,
                    shapes: Shapes, ghost rank: string -> nat): string
    requires Ranked(producers, rank) && forall v :: v in todo ==> v in NamesIn(producers, starts)
    decreases NamesIn(producers, starts) - seen, |todo|
  {
    if todo == [] then ""
    else
      var v, rest := todo[|todo| - 1], todo[..|todo| - 1];
      if v in seen then WalkFrom(rest, seen, starts, inits, producers, shapes, rank)
      else
        var name := HeadName(v, inits, producers, shapes, rank);
        if name != "" then name
        else
          NextAllInside(v, inits, producers, starts);
          WalkFrom(rest + Next(v, inits, producers), seen + {v}, starts, inits, producers, shapes, rank)
  }

  lemma ReachStart(v: string, starts: seq<string>, inits: Scope, producers: Producers)
    requires v in starts
    ensures Reachable(v, starts, inits, producers)
  {
    assert WalkPath([v], starts, inits, producers);
  }

  lemma ReachStep(v: string, w: string, starts: seq<string>, inits: Scope, producers: Producers)
    requires Reachable(v, starts, inits, producers) && w in Next(v, inits, producers)
    ensures Reachable(w, starts, inits, producers)
  {
    var path :| WalkPath(path, starts, inits, producers) && path[|path| - 1] == v;
    var longer := path + [w];
    assert WalkPath(longer, starts, inits, producers) && longer[|longer| - 1] == w;
  }

  /** A set that holds the starts and is closed under steps holds all that can be reached. */
  ghost predicate Closed(seen: set<string>, starts: seq<string>, inits: Scope, producers: Producers) {
    && (forall v :: v in starts ==> v in seen)
    && forall v, w :: v in seen && w in Next(v, inits, producers) ==> w in seen
  }

  lemma {:induction false} PathInside(path: seq<string>, k: nat, seen: set<string>, starts: seq<string>,
                                      inits: Scope, producers: Producers)
    requires Closed(seen, starts, inits, producers) && WalkPath(path, starts, inits, producers) && k < |path|
    ensures path[k] in seen
  {
    if k > 0 {
      PathInside(path, k - 1, seen, starts, inits, producers);
      assert path[k - 1 + 1] in Next(path[k - 1], inits, producers);
    }
  }

  lemma ReachableInside(v: string, seen: set<string>, starts: seq<string>, inits: Scope, producers: Producers)
    requires Closed(seen, starts, inits, producers) && Reachable(v, starts, inits, producers)
    ensures v in seen
  {
    var path :| WalkPath(path, starts, inits, producers) && path[|path| - 1] == v;
    PathInside(path, |path| - 1, seen, starts, inits, producers);
  }

  /** Every name a walk could meet. */
  function NamesIn(producers: Producers, starts: seq<string>): set<string> {
    (set n | n in starts) + set v, n | v in producers && n in producers[v].inputs :: n
  }

  lemma NextInside(v: string, w: string, inits: Scope, producers: Producers, starts: seq<string>)
    requires w in Next(v, inits, producers)
    ensures w in NamesIn(producers, starts)
  {
    assert w in producers[v].inputs;
  }

  lemma NextAllInside(v: string, inits: Scope, producers: Producers, starts: seq<string>)
    ensures forall w :: w in Next(v, inits, producers) ==> w in NamesIn(producers, starts)
  {
    forall w | w in Next(v, inits, producers)
      ensures w in NamesIn(producers, starts)
    {
      NextInside(v, w, inits, producers, starts);
    }
  }

  /** What the walk has established when `todo` is left to do. */
  ghost predicate Walked(seen: set<string>, todo: seq<string>, starts: seq<string>, inits: Scope,
                         producers: Producers, shapes: Shapes) {
    && (forall v :: v in starts ==> v in seen || v in todo)
    && (forall v, w :: v in seen && w in Next(v, inits, producers) ==> w in seen || w in todo)
    && (forall v :: v in seen || v in todo ==> Reachable(v, starts, inits, producers))
    && (forall v, t :: v in seen && HeadTrace(v, t, inits, producers, shapes) ==> t == "")
  }

  /** The worklist loop of `_find_lm_head_weight_initializer`. It ends on every graph: each round either sees a
      new value or shortens the list. */
  method Walk(starts: seq<string>, inits: Scope, producers: Producers, shapes: Shapes, ghost rank: string -> nat)
    returns (r: string)
    requires Ranked(producers, rank)
    ensures forall v :: v in starts ==> v in NamesIn(producers, starts)
    ensures r == WalkFrom(starts, {}, starts, inits, producers, shapes, rank)
    ensures r != "" ==> exists v :: Reachable(v, starts, inits, producers) && HeadTrace(v, r, inits, producers, shapes)
    ensures r == "" ==>
      forall v, t :: Reachable(v, starts, inits, producers) && HeadTrace(v, t, inits, producers, shapes) ==> t == ""
  {
    hide Next, HeadTrace, Reachable, Traces, HeadName, NamesIn;
    ghost var all := NamesIn(producers, starts);
    var worklist, seen := starts, {};
    StartsWalked(starts, inits, producers, shapes);
    while worklist != []
      invariant Walked(seen, worklist, starts, inits, producers, shapes)
      invariant forall v :: v in worklist ==> v in all
      invariant WalkFrom(starts, {}, starts, inits, producers, shapes, rank)
             == WalkFrom(worklist, seen, starts, inits, producers, shapes, rank)
      decreases all - seen, |worklist|
    {
      var v := worklist[|worklist| - 1];
      ghost var before := worklist;
      worklist := worklist[..|worklist| - 1];
      assert before == worklist + [v];
      if v !in seen {
        r := HeadOf(v, inits, producers, shapes, rank);
        if r != "" {
          return;
        }
        worklist := worklist + Next(v, inits, producers);
        NextAllInside(v, inits, producers, starts);
        WalkedStep(v, seen, before, worklist, starts, inits, producers, shapes);
        seen := seen + {v};
      }
    }
    r := "";
    forall v, t | Reachable(v, starts, inits, producers) && HeadTrace(v, t, inits, producers, shapes)
      ensures t == ""
    {
      ReachableInside(v, seen, starts, inits, producers);
    }
  }

  lemma StartsWalked(starts: seq<string>, inits: Scope, producers: Producers, shapes: Shapes)
    ensures Walked({}, starts, starts, inits, producers, shapes)
    ensures forall v :: v in starts ==> v in NamesIn(producers, starts)
  {
    forall v | v in starts
      ensures Reachable(v, starts, inits, producers)
    {
      ReachStart(v, starts, inits, producers);
    }
  }

  lemma WalkedStep(v: string, seen: set<string>, before: seq<string>, after: seq<string>, starts: seq<string>,
                   inits: Scope, producers: Producers, shapes: Shapes)
    requires Walked(seen, before, starts, inits, producers, shapes) && before != [] && before[|before| - 1] == v
    requires after == before[..|before| - 1] + Next(v, inits, producers)
    requires forall t :: HeadTrace(v, t, inits, producers, shapes) ==> t == ""
    ensures Walked(seen + {v}, after, starts, inits, producers, shapes)
  {
    hide Next, HeadTrace, Reachable;
    assert before == before[..|before| - 1] + [v];
    forall w | w in Next(v, inits, producers)
      ensures Reachable(w, starts, inits, producers)
    {
      ReachStep(v, w, starts, inits, producers);
    }
  }

  /** The initializer behind the projection that makes `v`, if one does. */
  method HeadOf(v: string, inits: Scope, producers: Producers, shapes: Shapes, ghost rank: string -> nat)
    returns (r: string)
    requires Ranked(producers, rank)
    ensures r == HeadName(v, inits, producers, shapes, rank)
    ensures r != "" ==> HeadTrace(v, r, inits, producers, shapes)
    ensures r == "" ==> forall t :: HeadTrace(v, t, inits, producers, shapes) ==> t == ""
  {
    r := "";
    if v in producers && Projection(producers[v]) {
      var inputs := producers[v].inputs;
      var k := 1;
      while k < |inputs|
        invariant k >= 1 && r == "" && (k <= |inputs| || inputs == [])
        invariant inputs != [] ==>
          HeadName(v, inits, producers, shapes, rank) == FirstNamed(inputs[k..], inits, producers, shapes, rank)
        invariant forall j, t :: 1 <= j < k && j < |inputs| && Traces(inputs[j], t, inits, producers, shapes) ==>
          t == ""
      {
        r := FindInitializer(inputs[k], inits, producers, shapes, rank);
        FindInitializerTraces(inputs[k], inits, producers, shapes, rank);
        if r != "" {
          assert Traces(producers[v].inputs[k], r, inits, producers, shapes);
          return;
        }
        k := k + 1;
      }
    }
  }

  // -------------------------------------------------------------------------------------- the lookup

  /** The names of the initializers of candidate shape, in order. */
  function ShapeMatches(inits: seq<Initializer>, shapes: Shapes): (r: seq<string>)
    ensures forall n :: n in r ==> exists i :: 0 <= i < |inits| && inits[i].name == n && inits[i].tensor.dims in shapes
  {
    if inits == [] then []
    else
      var k := |inits| - 1;
      var before := ShapeMatches(inits[..k], shapes);
      assert forall n :: n in before ==>
        exists i :: 0 <= i < k && inits[..k][i] == inits[i] && inits[i].name == n && inits[i].tensor.dims in shapes;
      if inits[k].tensor.dims in shapes then before + [inits[k].name] else before
  }

  function NamedMatches(names: seq<string>): (r: seq<string>)
    ensures forall n :: n in r ==> n in names && NamesLmHead(n)
  {
    if names == [] then []
    else if NamesLmHead(names[|names| - 1]) then NamedMatches(names[..|names| - 1]) + [names[|names| - 1]]
    else NamedMatches(names[..|names| - 1])
  }

  /** The outputs the walk starts from. */
  function Starts(outputs: seq<string>): seq<string> {
    if "logits" in outputs then Logits(outputs) else outputs
  }

  function Logits(outputs: seq<string>): (r: seq<string>)
    ensures forall n :: n in r <==> n in outputs && n == "logits"
  {
    if outputs == [] then []
    else if outputs[0] == "logits" then [outputs[0]] + Logits(outputs[1..])
    else Logits(outputs[1..])
  }

  /** Every initializer has its own name. */
  predicate UniqueNames(inits: seq<Initializer>) {
    forall i, j :: 0 <= i < j < |inits| ==> inits[i].name != inits[j].name
  }

  lemma {:induction false} UniqueLookup(inits: seq<Initializer>, i: nat)
    requires UniqueNames(inits) && i < |inits|
    ensures inits[i].name in InitializerMap(inits) && InitializerMap(inits)[inits[i].name] == inits[i].tensor
  {
    var k := |inits| - 1;
    if i < k {
      UniqueLookup(inits[..k], i);
    }
  }

  /** The weight of the LM head, if there is one. */
  function LmHeadWeight(g: Graph, shapes: Shapes, ghost rank: string -> nat): Option<string>
    requires Ranked(ProducerMap(g.nodes), rank)
  {
    var shaped := ShapeMatches(g.initializers, shapes);
    var named := NamedMatches(shaped);
    if shapes == {} then None
    else if |named| == 1 then Some(named[0])
    else if |shaped| == 1 then Some(shaped[0])
    else
      var starts := Starts(g.outputs);
      StartsInside(starts, ProducerMap(g.nodes));
      var name := WalkFrom(starts, {}, starts, InitializerMap(g.initializers), ProducerMap(g.nodes), shapes, rank);
      if name != "" then Some(name) else None
  }

  /** Whatever it is, it is an initializer of candidate shape. */
  lemma LmHeadWeightIsCandidate(g: Graph, shapes: Shapes, rank: string -> nat)
    requires Ranked(ProducerMap(g.nodes), rank) && UniqueNames(g.initializers)
    ensures var r := LmHeadWeight(g, shapes, rank);
      r.Some? ==> Candidate(r.value, InitializerMap(g.initializers), shapes)
  {
    hide WalkFrom, Candidate, NamedMatches, Starts;
    var inits, starts := InitializerMap(g.initializers), Starts(g.outputs);
    ShapedAreCandidates(g, shapes);
    StartsInside(starts, ProducerMap(g.nodes));
    WalkFromCandidate(starts, {}, starts, inits, ProducerMap(g.nodes), shapes, rank);
    NamedAreShaped(ShapeMatches(g.initializers, shapes));
  }

  lemma NamedAreShaped(shaped: seq<string>)
    ensures |NamedMatches(shaped)| == 1 ==> NamedMatches(shaped)[0] in shaped
  {
    if |NamedMatches(shaped)| == 1 {
      assert NamedMatches(shaped)[0] in NamedMatches(shaped);
    }
  }

  lemma ShapedAreCandidates(g: Graph, shapes: Shapes)
    requires UniqueNames(g.initializers)
    ensures forall n :: n in ShapeMatches(g.initializers, shapes) ==>
      Candidate(n, InitializerMap(g.initializers), shapes)
  {
    forall n | n in ShapeMatches(g.initializers, shapes)
      ensures Candidate(n, InitializerMap(g.initializers), shapes)
    {
      var i :| 0 <= i < |g.initializers| && g.initializers[i].name == n && g.initializers[i].tensor.dims in shapes;
      UniqueLookup(g.initializers, i);
    }
  }

  lemma {:induction false} FirstNamedCandidate(values: seq<string>, inits: Scope, producers: Producers,
                                               shapes: Shapes, rank: string -> nat)
    requires Ranked(producers, rank)
    ensures var r := FirstNamed(values, inits, producers, shapes, rank); r != "" ==> Candidate(r, inits, shapes)
  {
    hide Ranked, Candidate, FindInitializer;
    if values != [] {
      FindInitializerTraces(values[0], inits, producers, shapes, rank);
      FirstNamedCandidate(values[1..], inits, producers, shapes, rank);
    }
  }

  lemma {:induction false} WalkFromCandidate(todo: seq<string>, seen: set<string>, starts: seq<string>, inits: Scope,
                                             producers: Producers, shapes: Shapes, rank: string -> nat)
    requires Ranked(producers, rank) && forall v :: v in todo ==> v in NamesIn(producers, starts)
    ensures var r := WalkFrom(todo, seen, starts, inits, producers, shapes, rank); r != "" ==>
      Candidate(r, inits, shapes)
    decreases NamesIn(producers, starts) - seen, |todo|
  {
    hide Ranked, Candidate, FirstNamed, NamesIn, Next;
    if todo != [] {
      var v, rest := todo[|todo| - 1], todo[..|todo| - 1];
      if v in seen {
        WalkFromCandidate(rest, seen, starts, inits, producers, shapes, rank);
      } else {
        if v in producers && |producers[v].inputs| > 0 {
          FirstNamedCandidate(producers[v].inputs[1..], inits, producers, shapes, rank);
        }
        NextAllInside(v, inits, producers, starts);
        WalkFromCandidate(rest + Next(v, inits, producers), seen + {v}, starts, inits, producers, shapes, rank);
      }
    }
  }

  lemma StartsInside(starts: seq<string>, producers: Producers)
    ensures forall v :: v in starts ==> v in NamesIn(producers, starts)
  {
  }

  /** `_find_lm_head_weight_initializer`. The only initializer of candidate shape with the right name, else the
      only one of candidate shape, else what the walk finds. */
  method FindLmHeadWeight(g: Graph, shapes: Shapes, ghost rank: string -> nat) returns (r: Option<string>)
    requires Ranked(ProducerMap(g.nodes), rank) && UniqueNames(g.initializers)
    ensures r == LmHeadWeight(g, shapes, rank)
    ensures r.Some? ==> Candidate(r.value, InitializerMap(g.initializers), shapes)
    ensures var shaped := ShapeMatches(g.initializers, shapes); var named := NamedMatches(shaped);
      shapes != {} ==>
        if |named| == 1 then r == Some(named[0])
        else if |shaped| == 1 then r == Some(shaped[0])
        else WalkDecides(g, shapes, r)
  {
    var inits := InitializerMap(g.initializers);
    if shapes == {} {
      return None;
    }
    var shaped := ShapeMatches(g.initializers, shapes);
    var named := NamedMatches(shaped);
    LmHeadWeightIsCandidate(g, shapes, rank);
    if |named| == 1 {
      return Some(named[0]);
    }
    if |shaped| == 1 {
      return Some(shaped[0]);
    }
    var name := Walk(Starts(g.outputs), inits, ProducerMap(g.nodes), shapes, rank);
    r := if name != "" then Some(name) else None;
  }

  /** The weight of a projection that the walk reaches, and none exactly when no projection it reaches has one. */
  ghost predicate WalkDecides(g: Graph, shapes: Shapes, r: Option<string>) {
    var inits, producers := InitializerMap(g.initializers), ProducerMap(g.nodes);
    match r
    case Some(t) =>
      && t != ""
      && exists v :: Reachable(v, Starts(g.outputs), inits, producers) && HeadTrace(v, t, inits, producers, shapes)
    case None =>
      forall v, t :: Reachable(v, Starts(g.outputs), inits, producers) ==>
        HeadTrace(v, t, inits, producers, shapes) ==>
          t == ""
  }
}
