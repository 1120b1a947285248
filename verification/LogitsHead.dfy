/** Whole graphs in which the LM head is found: by its name, by its shape, or from the logits back. */
module LogitsHead {
  import opened OnnxGraph
  import opened Wrappers
  import opened WeightNames
  import opened LmHead

  // -------------------------------------------------------------------------------- by name or by shape

  /** Initializer `i` has a candidate shape; `named`: and a name with `lm_head` in it. */
  predicate Fits(inits: seq<Initializer>, shapes: Shapes, i: nat, named: bool) {
    i < |inits| && inits[i].tensor.dims in shapes && (named ==> NamesLmHead(inits[i].name))
  }

  lemma {:induction false} NoMatch(inits: seq<Initializer>, shapes: Shapes)
    ensures (forall i: nat :: !Fits(inits, shapes, i, false)) ==> ShapeMatches(inits, shapes) == []
    ensures (forall i: nat :: !Fits(inits, shapes, i, true)) ==> NamedMatches(ShapeMatches(inits, shapes)) == []
  {
    hide NamesLmHead;
    if inits != [] {
      var k := |inits| - 1;
      NoMatch(inits[..k], shapes);
      FitsPrefix(inits, shapes, k);
      MatchesNext(inits, shapes);
      assert Fits(inits, shapes, k, false) <==> inits[k].tensor.dims in shapes;
      assert Fits(inits, shapes, k, true) <==> inits[k].tensor.dims in shapes && NamesLmHead(inits[k].name);
    }
  }

  lemma FitsPrefix(inits: seq<Initializer>, shapes: Shapes, k: nat)
    requires k <= |inits|
    ensures forall i: nat, b: bool :: Fits(inits[..k], shapes, i, b) <==> i < k && Fits(inits, shapes, i, b)
  {
  }

  /** One initializer more. */
  lemma MatchesNext(inits: seq<Initializer>, shapes: Shapes)
    requires inits != []
    ensures var k := |inits| - 1;
      var s, n := ShapeMatches(inits[..k], shapes), inits[k].name;
      && ShapeMatches(inits, shapes) == (if inits[k].tensor.dims in shapes then s + [n] else s)
      && NamedMatches(s + [n]) == (if NamesLmHead(n) then NamedMatches(s) + [n] else NamedMatches(s))
  {
    hide NamesLmHead;
    var k := |inits| - 1;
    var s, n := ShapeMatches(inits[..k], shapes), inits[k].name;
    assert (s + [n])[..|s|] == s;
  }

  lemma {:induction false} OneMatch(inits: seq<Initializer>, shapes: Shapes, i: nat, named: bool)
    requires Fits(inits, shapes, i, named) && forall j: nat :: Fits(inits, shapes, j, named) ==> j == i
    ensures var shaped := ShapeMatches(inits, shapes);
      (if named then NamedMatches(shaped) else shaped) == [inits[i].name]
    decreases |inits|
  {
    hide NamesLmHead;
    var k := |inits| - 1;
    FitsPrefix(inits, shapes, k);
    MatchesNext(inits, shapes);
    if i < k {
      OneMatch(inits[..k], shapes, i, named);
      assert !Fits(inits, shapes, k, named);
    } else {
      NoMatch(inits[..k], shapes);
    }
  }

  /** The only initializer of candidate shape with `lm_head` in its name is the weight. */
  lemma FoundByName(g: Graph, shapes: Shapes, rank: string -> nat, i: nat)
    requires Ranked(ProducerMap(g.nodes), rank)
    requires Fits(g.initializers, shapes, i, true)
    requires forall j: nat :: Fits(g.initializers, shapes, j, true) ==> j == i
    ensures LmHeadWeight(g, shapes, rank) == Some(g.initializers[i].name)
  {
    OneMatch(g.initializers, shapes, i, true);
  }

  /** Without one, or with several, the only initializer of candidate shape is. */
  lemma FoundByShape(g: Graph, shapes: Shapes, rank: string -> nat, i: nat)
    requires Ranked(ProducerMap(g.nodes), rank)
    requires Fits(g.initializers, shapes, i, false)
    requires forall j: nat :: Fits(g.initializers, shapes, j, false) ==> j == i
    ensures LmHeadWeight(g, shapes, rank) == Some(g.initializers[i].name)
  {
    OneMatch(g.initializers, shapes, i, false);
    OnlyShape(g.initializers[i].name);
  }

  lemma OnlyShape(n: string)
    ensures NamedMatches([n]) == if NamesLmHead(n) then [n] else []
  {
    assert [n][..0] == [];
  }

  // ----------------------------------------------------------------------------------- from the logits back

  /** A node gives out what it takes as `w`: a cast, a view, a logarithmic softmax, or the sum with an initializer. */
  predicate Passes(node: Node, inits: Scope, w: string) {
    || (node.op in ["Cast", "Identity", "Reshape", "Transpose", "LogSoftmax"]
        && node.inputs != [] && node.inputs[0] == w)
    || (node.op == "Add" && |node.inputs| == 2 && w !in inits
        && ((node.inputs[0] == w && node.inputs[1] in inits) || (node.inputs[1] == w && node.inputs[0] in inits)))
  }

  /** From the logits back through such nodes to a projection. */
  predicate LogitsPath(vals: seq<string>, inits: Scope, producers: Producers) {
    && vals != [] && vals[0] == "logits"
    && (forall k :: 0 <= k < |vals| ==> vals[k] in producers)
    && (forall k :: 0 <= k < |vals| - 1 ==> Passes(producers[vals[k]], inits, vals[k + 1]))
    && producers[vals[|vals| - 1]].op in ["Gemm", "MatMul"]
  }

  /** `u` is the candidate `t`, or a cast or a view of it. */
  predicate Supplies(u: string, t: string, inits: Scope, producers: Producers, shapes: Shapes) {
    && t != "" && t in inits && inits[t].dims in shapes
    && (u == t || (u !in inits && u in producers && producers[u].op in ["Cast", "Identity", "Transpose"]
                   && producers[u].inputs != [] && producers[u].inputs[0] == t))
  }

  lemma PassesNext(node: Node, inits: Scope, v: string, w: string, producers: Producers)
    requires v in producers && producers[v] == node && Passes(node, inits, w)
    ensures !Projection(node) && Next(v, inits, producers) == [w]
  {
    if node.op == "Add" {
      WithoutOne(node.inputs[0], node.inputs[1], inits);
      assert node.inputs == [node.inputs[0], node.inputs[1]];
    } else {
      assert node.inputs[..1] == [w];
    }
  }

  lemma WithoutOne(a: string, b: string, inits: Scope)
    requires a in inits <==> b !in inits
    ensures Without([a, b], inits) == if a in inits then [b] else [a]
  {
    assert [a, b][1..] == [b] && [b][1..] == [];
    assert Without([], inits) == [];
    assert Without([b], inits) == if b in inits then [] else [b];
  }

  /** No value comes twice on such a path: from two equal values on it would go on alike, and never end. */
  lemma {:induction false} PathSame(vals: seq<string>, inits: Scope, producers: Producers, j: nat, k: nat)
    requires LogitsPath(vals, inits, producers) && j < k < |vals| && vals[j] == vals[k]
    ensures false
    decreases |vals| - k
  {
    hide Next;
    var node := producers[vals[k]];
    PassesNext(producers[vals[j]], inits, vals[j], vals[j + 1], producers);
    if k < |vals| - 1 {
      PassesNext(node, inits, vals[k], vals[k + 1], producers);
      assert [vals[j + 1]][0] == [vals[k + 1]][0];
      PathSame(vals, inits, producers, j + 1, k + 1);
    }
  }

  lemma SuppliedName(u: string, t: string, inits: Scope, producers: Producers, shapes: Shapes, rank: string -> nat)
    requires Ranked(producers, rank) && Supplies(u, t, inits, producers, shapes)
    ensures FindInitializer(u, inits, producers, shapes, rank) == t
  {
    assert FindInitializer(t, inits, producers, shapes, rank) == t;
    if u != t {
      var among := producers[u].inputs;
      assert FindAmong(among, inits, producers, shapes, rank, rank(u)) == t;
    }
  }

  /** The walk goes down the path, whatever is left to do besides. */
  lemma {:induction false} WalkPathEnds(vals: seq<string>, k: nat, rest: seq<string>, starts: seq<string>, inits: Scope,
                                        producers: Producers, shapes: Shapes, rank: string -> nat, t: string)
    requires Ranked(producers, rank) && LogitsPath(vals, inits, producers) && k < |vals|
    requires |producers[vals[|vals| - 1]].inputs| > 1
    requires Supplies(producers[vals[|vals| - 1]].inputs[1], t, inits, producers, shapes)
    requires forall v :: v in rest + [vals[k]] ==> v in NamesIn(producers, starts)
    ensures WalkFrom(rest + [vals[k]], Before(vals, k), starts, inits, producers, shapes, rank) == t
    decreases |vals| - k
  {
    hide Next, NamesIn, FindInitializer, Passes, Supplies;
    var v, todo := vals[k], rest + [vals[k]];
    assert todo[..|todo| - 1] == rest;
    NotBefore(vals, inits, producers, k);
    NextAllInside(v, inits, producers, starts);
    if k == |vals| - 1 {
      var inputs := producers[v].inputs;
      SuppliedName(inputs[1], t, inits, producers, shapes, rank);
      assert inputs[1..][0] == inputs[1];
      assert t != "" by {
        NamedSupply(inputs[1], t, inits, producers, shapes);
      }
    } else {
      PassesNext(producers[v], inits, v, vals[k + 1], producers);
      BeforeNext(vals, k);
      WalkPathEnds(vals, k + 1, rest, starts, inits, producers, shapes, rank, t);
    }
  }

  function Before(vals: seq<string>, k: nat): set<string>
    requires k <= |vals|
  {
    set i | 0 <= i < k :: vals[i]
  }

  lemma BeforeNext(vals: seq<string>, k: nat)
    requires k < |vals|
    ensures Before(vals, k + 1) == Before(vals, k) + {vals[k]}
  {
  }

  lemma NotBefore(vals: seq<string>, inits: Scope, producers: Producers, k: nat)
    requires LogitsPath(vals, inits, producers) && k < |vals|
    ensures vals[k] !in Before(vals, k)
  {
    if i :| 0 <= i < k && vals[i] == vals[k] {
      PathSame(vals, inits, producers, i, k);
    }
  }

  lemma NamedSupply(u: string, t: string, inits: Scope, producers: Producers, shapes: Shapes)
    requires Supplies(u, t, inits, producers, shapes)
    ensures t != "" && shapes != {}
  {
  }

  /** When neither name nor shape decides, the weight is the one that the projection behind the logits takes: directly,
      or through a cast or a view; and the logits may be casts, views, a logarithmic softmax or a biased form of what
      the projection gives. */
  lemma FoundFromLogits(g: Graph, shapes: Shapes, rank: string -> nat, vals: seq<string>, t: string)
    requires Ranked(ProducerMap(g.nodes), rank) && "logits" in g.outputs
    requires |ShapeMatches(g.initializers, shapes)| != 1
    requires |NamedMatches(ShapeMatches(g.initializers, shapes))| != 1
    requires LogitsPath(vals, InitializerMap(g.initializers), ProducerMap(g.nodes))
    requires |ProducerMap(g.nodes)[vals[|vals| - 1]].inputs| > 1
    requires var producers := ProducerMap(g.nodes);
      Supplies(producers[vals[|vals| - 1]].inputs[1], t, InitializerMap(g.initializers), producers, shapes)
    ensures LmHeadWeight(g, shapes, rank) == Some(t)
  {
    hide Next, FindInitializer, Passes, WalkFrom;
    var inits, producers, starts := InitializerMap(g.initializers), ProducerMap(g.nodes), Starts(g.outputs);
    StartsInside(starts, producers);
    var k := |starts| - 1;
    LogitsOnly(g.outputs);
    assert starts == starts[..k] + [vals[0]];
    assert Before(vals, 0) == {};
    WalkPathEnds(vals, 0, starts[..k], starts, inits, producers, shapes, rank, t);
  }

  lemma {:induction false} LogitsOnly(outputs: seq<string>)
    requires "logits" in outputs
    ensures Logits(outputs) != [] && Logits(outputs)[|Logits(outputs)| - 1] == "logits"
  {
    assert "logits" in Logits(outputs);
    assert Logits(outputs)[|Logits(outputs)| - 1] in Logits(outputs);
  }

  /** If the logits are the sum of what two projections give, the weight is that of the second. */
  lemma FoundBehindSum(g: Graph, shapes: Shapes, rank: string -> nat, t: string)
    requires Ranked(ProducerMap(g.nodes), rank) && g.outputs == ["logits"]
    requires |ShapeMatches(g.initializers, shapes)| != 1
    requires |NamedMatches(ShapeMatches(g.initializers, shapes))| != 1
    requires var inits, producers := InitializerMap(g.initializers), ProducerMap(g.nodes);
      && "logits" in producers && producers["logits"].op == "Add" && |producers["logits"].inputs| == 2
      && var a, b := producers["logits"].inputs[0], producers["logits"].inputs[1];
      && a !in inits && b !in inits && b != "logits" && b in producers
      && producers[b].op in ["Gemm", "MatMul"] && |producers[b].inputs| > 1
      && Supplies(producers[b].inputs[1], t, inits, producers, shapes)
    ensures LmHeadWeight(g, shapes, rank) == Some(t)
  {
    hide Supplies, WalkFrom, NamesIn;
    LogitsAlone();
    StartsInside(["logits"], ProducerMap(g.nodes));
    SumWalked(InitializerMap(g.initializers), ProducerMap(g.nodes), shapes, rank, t);
    var inits, producers := InitializerMap(g.initializers), ProducerMap(g.nodes);
    NamedSupply(producers[producers["logits"].inputs[1]].inputs[1], t, inits, producers, shapes);
  }

  lemma SumWalked(inits: Scope, producers: Producers, shapes: Shapes, rank: string -> nat, t: string)
    requires Ranked(producers, rank) && "logits" in producers && producers["logits"].op == "Add"
    requires |producers["logits"].inputs| == 2
    requires var a, b := producers["logits"].inputs[0], producers["logits"].inputs[1];
      && a !in inits && b !in inits && b != "logits" && b in producers
      && producers[b].op in ["Gemm", "MatMul"] && |producers[b].inputs| > 1
      && Supplies(producers[b].inputs[1], t, inits, producers, shapes)
    ensures "logits" in NamesIn(producers, ["logits"])
    ensures WalkFrom(["logits"], {}, ["logits"], inits, producers, shapes, rank) == t
  {
    hide Supplies, WalkFrom, HeadName, NamesIn, Next;
    var starts := ["logits"];
    var a, b := producers["logits"].inputs[0], producers["logits"].inputs[1];
    SumNext(producers["logits"], a, b, inits, producers);
    StartsInside(starts, producers);
    NoProjection("logits", inits, producers, shapes, rank);
    ProjectionName(b, t, inits, producers, shapes, rank);
    assert [] + ["logits"] == starts && [] + [a, b] == [a] + [b] && {} + {"logits"} == {"logits"};
    WalkStep([], "logits", {}, starts, inits, producers, shapes, rank);
    WalkStep([a], b, {"logits"}, starts, inits, producers, shapes, rank);
  }

  lemma NoProjection(v: string, inits: Scope, producers: Producers, shapes: Shapes, rank: string -> nat)
    requires Ranked(producers, rank) && v in producers && !Projection(producers[v])
    ensures HeadName(v, inits, producers, shapes, rank) == ""
  {
  }

  lemma SumNext(node: Node, a: string, b: string, inits: Scope, producers: Producers)
    requires "logits" in producers && producers["logits"] == node && node.op == "Add"
    requires |node.inputs| == 2 && a == node.inputs[0] && b == node.inputs[1] && a !in inits && b !in inits
    ensures !Projection(node) && Next("logits", inits, producers) == [a, b]
  {
    WithoutNone(a, b, inits);
    assert node.inputs == [a, b];
  }

  lemma ProjectionName(v: string, t: string, inits: Scope, producers: Producers, shapes: Shapes, rank: string -> nat)
    requires Ranked(producers, rank) && v in producers && producers[v].op in ["Gemm", "MatMul"]
    requires |producers[v].inputs| > 1 && Supplies(producers[v].inputs[1], t, inits, producers, shapes)
    ensures HeadName(v, inits, producers, shapes, rank) == t != ""
  {
    hide FindInitializer, Supplies;
    var inputs := producers[v].inputs;
    SuppliedName(inputs[1], t, inits, producers, shapes, rank);
    NamedSupply(inputs[1], t, inits, producers, shapes);
    assert inputs[1..][0] == inputs[1];
  }

  /** One turn of the walk. */
  lemma WalkStep(rest: seq<string>, v: string, seen: set<string>, starts: seq<string>, inits: Scope,
                 producers: Producers, shapes: Shapes, rank: string -> nat)
    requires Ranked(producers, rank) && v !in seen
    requires forall w :: w in rest + [v] ==> w in NamesIn(producers, starts)
    ensures forall w :: w in rest + Next(v, inits, producers) ==> w in NamesIn(producers, starts)
    ensures WalkFrom(rest + [v], seen, starts, inits, producers, shapes, rank)
         == if HeadName(v, inits, producers, shapes, rank) != "" then HeadName(v, inits, producers, shapes, rank)
            else WalkFrom(rest + Next(v, inits, producers), seen + {v}, starts, inits, producers, shapes, rank)
  {
    hide NamesIn, Next, HeadName;
    NextAllInside(v, inits, producers, starts);
    assert (rest + [v])[..|rest|] == rest;
  }

  lemma LogitsAlone()
    ensures Starts(["logits"]) == ["logits"]
  {
    assert ["logits"][1..] == [];
  }

  lemma WithoutNone(a: string, b: string, inits: Scope)
    requires a !in inits && b !in inits
    ensures Without([a, b], inits) == [a, b]
  {
    assert [a, b][1..] == [b] && [b][1..] == [];
    assert Without([], inits) == [];
  }
}
