/** Moving initializers of a graph into external weight files. */
module ExternalWeights {
  import opened OnnxGraph
  import opened Collecting
  import opened WeightNames
  import opened LmHead
  import opened WeightCodec
  import opened WeightFile
  import opened Wrappers

  const INT4_FFN := "int4_ffn"
  const INT4_MOE := "int4_moe"
  const NVFP4_MOE := "nvfp4_moe"
  const LM_HEAD := "lm_head"
  const ALL := "all"
  const KINDS := [INT4_FFN, INT4_MOE, NVFP4_MOE, LM_HEAD]

  // ----------------------------------------------------------------------------------------- request

  datatype Request = Nothing | One(kind: string) | Many(kinds: seq<string>)

  datatype Resolution = Kinds(kinds: seq<string>) | Unsupported(kind: string)

  function Values(request: Request): seq<string> {
    match request
    case Nothing => []
    case One(kind) => [kind]
    case Many(kinds) => kinds
  }

  predicate IsKind(v: string) {
    v in KINDS
  }

  /** Value `i` is the first that is not a kind. */
  predicate FirstOther(values: seq<string>, i: nat) {
    i < |values| && !IsKind(values[i]) && forall j :: 0 <= j < i ==> IsKind(values[j])
  }

  lemma OnlyFirst(values: seq<string>, i: nat)
    requires FirstOther(values, i)
    ensures forall j: nat :: FirstOther(values, j) ==> j == i
  {
    forall j: nat | FirstOther(values, j)
      ensures j == i
    {
    }
  }

  function KindSet(): set<string> {
    set k | k in KINDS
  }

  /** What a request asks for: the first value that is not a kind decides, if there is one; otherwise it is the
      values, each once. */
  ghost predicate Resolves(request: Request, r: Resolution) {
    && ((forall v :: v in Values(request) ==> IsKind(v)) ==> r == Kinds(Collect(Values(request), KindSet())))
    && forall i: nat :: FirstOther(Values(request), i) ==>
      r == if Values(request)[i] == ALL then Kinds(KINDS) else Unsupported(Values(request)[i])
  }

  lemma KindFacts()
    ensures !IsKind(ALL) && Distinct(KINDS)
    ensures forall v :: IsKind(v) <==> v in KindSet()
    ensures forall v :: v in KINDS <==> IsKind(v)
  {
  }

  /** `resolve_externalize_weights` */
  method ResolveExternalizeWeights(request: Request) returns (r: Resolution)
    ensures Resolves(request, r)
    ensures r.Kinds? ==> Distinct(r.kinds) && forall k :: k in r.kinds ==> k in KINDS
  {
    hide Resolves, IsKind, KindSet, Collect, FirstOther, Distinct;
    KindFacts();
    var values := Values(request);
    var requested := [];
    var i := 0;
    NothingCollected(KindSet());
    while i < |values|
      invariant 0 <= i <= |values|
      invariant forall j :: 0 <= j < i ==> IsKind(values[j])
      invariant requested == Collect(values[..i], KindSet())
    {
      var value := values[i];
      if value == ALL {
        OtherFound(request, i);
        return Kinds(KINDS);
      }
      if value !in KINDS {
        OtherFound(request, i);
        return Unsupported(value);
      }
      if value !in requested {
        requested := requested + [value];
      }
      assert values[..i + 1] == values[..i] + [value];
      CollectNext(values[..i], value, KindSet());
      i := i + 1;
    }
    assert values[..i] == values;
    CollectExact(values, KindSet());
    AllKinds(request);
    r := Kinds(requested);
  }

  lemma OtherFound(request: Request, i: nat)
    requires var values := Values(request);
      i < |values| && !IsKind(values[i]) && forall j :: 0 <= j < i ==> IsKind(values[j])
    ensures Resolves(request, if Values(request)[i] == ALL then Kinds(KINDS) else Unsupported(Values(request)[i]))
  {
    hide IsKind, Collect, KindSet;
    OnlyFirst(Values(request), i);
    assert Values(request)[i] in Values(request);
  }

  lemma AllKinds(request: Request)
    requires forall j :: 0 <= j < |Values(request)| ==> IsKind(Values(request)[j])
    ensures Resolves(request, Kinds(Collect(Values(request), KindSet())))
  {
    hide IsKind, Collect, KindSet;
  }

  // ------------------------------------------------------------------------------------------- scans

  /** The inputs of a node that hold weights of a kind. */
  function Picks(node: Node, kind: string, layerTypes: seq<string>): seq<string> {
    if node.domain != "trt_edgellm" then []
    else if kind == INT4_FFN then
      if (node.op == "Int4GroupwiseGemmPlugin" || node.op == "Int4GroupwiseGemmPluginV2") && |node.inputs| >= 3
         && IsDenseFfn(node.inputs[1], layerTypes) then
        [node.inputs[1], node.inputs[2]]
      else
        []
    else if kind == INT4_MOE then
      if node.op == "Int4MoePlugin" && |node.inputs| >= 5 then [node.inputs[2], node.inputs[4]] else []
    else if kind == NVFP4_MOE then
      if node.op == "Nvfp4MoePlugin" || node.op == "NvFP4MoEPluginGeforce" then node.inputs else []
    else
      []
  }

  function PicksOf(nodes: seq<Node>, kind: string, layerTypes: seq<string>): seq<string> {
    if nodes == [] then []
    else PicksOf(nodes[..|nodes| - 1], kind, layerTypes) + Picks(nodes[|nodes| - 1], kind, layerTypes)
  }

  /** The names of a list, as a set. */
  function NameSet(names: seq<string>): set<string> {
    set n | n in names
  }

  /** The scans `_find_int4_ffn_weight_initializers`, `_find_int4_moe_weight_initializers` and
      `_find_nvfp4_moe_weight_initializers`. */
  method FindWeightInitializers(g: Graph, kind: string, layerTypes: seq<string>) returns (names: seq<string>)
    ensures names == Collect(PicksOf(g.nodes, kind, layerTypes), InitializerMap(g.initializers).Keys)
  {
    hide Picks, Collect, NameSet;
    var initializers := InitializerMap(g.initializers).Keys;
    names := [];
    var nameSet: set<string> := {};
    NothingCollected(initializers);
    var i := 0;
    while i < |g.nodes|
      invariant 0 <= i <= |g.nodes|
      invariant names == Collect(PicksOf(g.nodes[..i], kind, layerTypes), initializers)
      invariant nameSet == NameSet(names)
    {
      names, nameSet := AddPicks(Picks(g.nodes[i], kind, layerTypes), PicksOf(g.nodes[..i], kind, layerTypes),
                                 initializers, names, nameSet);
      assert g.nodes[..i + 1][..i] == g.nodes[..i];
      i := i + 1;
    }
    assert g.nodes[..i] == g.nodes;
  }

  lemma NothingCollected(initializers: set<string>)
    ensures Collect([], initializers) == [] && NameSet([]) == {}
  {
  }

  /** The inner loop of the scans: the names one node picks. */
  method AddPicks(picks: seq<string>, ghost before: seq<string>, initializers: set<string>, names: seq<string>,
                  nameSet: set<string>)
    returns (names': seq<string>, nameSet': set<string>)
    requires names == Collect(before, initializers) && nameSet == NameSet(names)
    ensures names' == Collect(before + picks, initializers) && nameSet' == NameSet(names')
  {
    hide Collect;
    names', nameSet' := names, nameSet;
    var j := 0;
    assert before == before + picks[..0];
    while j < |picks|
      invariant 0 <= j <= |picks|
      invariant names' == Collect(before + picks[..j], initializers)
      invariant nameSet' == NameSet(names')
    {
      CollectNext(before + picks[..j], picks[j], initializers);
      assert before + picks[..j] + [picks[j]] == before + picks[..j + 1];
      if picks[j] in initializers && picks[j] !in nameSet' {
        names' := names' + [picks[j]];
        nameSet' := nameSet' + {picks[j]};
      }
      j := j + 1;
    }
    assert picks[..j] == picks;
  }

  /** A scan finds each initializer that some node of the kind takes as a weight, once. */
  lemma ScanExact(g: Graph, kind: string, layerTypes: seq<string>)
    ensures var names := Collect(PicksOf(g.nodes, kind, layerTypes), InitializerMap(g.initializers).Keys);
      && Distinct(names)
      && forall n :: n in names <==>
        n in InitializerMap(g.initializers) && exists node :: node in g.nodes && n in Picks(node, kind, layerTypes)
  {
    hide Picks, Collect;
    CollectExact(PicksOf(g.nodes, kind, layerTypes), InitializerMap(g.initializers).Keys);
    forall n
      ensures n in PicksOf(g.nodes, kind, layerTypes) <==>
        exists node :: node in g.nodes && n in Picks(node, kind, layerTypes)
    {
      PicksOfMembers(g.nodes, kind, layerTypes, n);
    }
  }

  lemma {:induction false} PicksOfMembers(nodes: seq<Node>, kind: string, layerTypes: seq<string>, n: string)
    ensures n in PicksOf(nodes, kind, layerTypes) <==>
      exists node :: node in nodes && n in Picks(node, kind, layerTypes)
  {
    hide Picks, IsDenseFfn;
    if nodes != [] {
      var k := |nodes| - 1;
      PicksOfMembers(nodes[..k], kind, layerTypes, n);
      assert nodes == nodes[..k] + [nodes[k]];
    }
  }

  // ------------------------------------------------------------------------------------------ manifest

  datatype ManifestEntry = ManifestEntry(file: string, kind: string, tensors: seq<string>)

  function FileOf(kind: string): string {
    if kind == INT4_FFN then "external_int4_ffn_weights.safetensors"
    else if kind == INT4_MOE then "external_int4_moe_weights.safetensors"
    else if kind == NVFP4_MOE then "external_nvfp4_moe_weights.safetensors"
    else "external_lm_head_weight.safetensors"
  }

  function ManifestKind(kind: string): string {
    if kind == INT4_FFN then "int4_ffn_weights" else if kind == INT4_MOE then "int4_moe_weights"
    else if kind == NVFP4_MOE then "nvfp4_moe_weights" else "lm_head_weight"
  }

  /** All the names of a manifest, entry after entry. */
  function NamesOf(manifest: seq<ManifestEntry>): seq<string> {
    if manifest == [] then [] else NamesOf(manifest[..|manifest| - 1]) + manifest[|manifest| - 1].tensors
  }

  /** Those of `names` that are not taken. */
  function Untaken(names: seq<string>, taken: set<string>): (r: seq<string>)
    ensures forall n :: n in r <==> n in names && n !in taken
  {
    if names == [] then []
    else if names[|names| - 1] in taken then Untaken(names[..|names| - 1], taken)
    else Untaken(names[..|names| - 1], taken) + [names[|names| - 1]]
  }

  /** `node` is one of the runtime's own operators, of type `op`. */
  predicate IsPlugin(node: Node, op: string) {
    node.domain == "trt_edgellm" && node.op == op
  }

  /** Where each kind looks for weights: dense FFN weights and their scales are inputs 1 and 2 of a groupwise GEMM; the
      weights of an integer mixture of experts are inputs 2 and 4; any input of an NVFP4 one can be a weight. */
  lemma FoundWhere(g: Graph, layerTypes: seq<string>, head: Option<string>, n: string)
    ensures n in FoundFor(g, "int4_ffn", layerTypes, head) <==>
      && n in InitializerMap(g.initializers)
      && exists node ::
           && node in g.nodes
           && (IsPlugin(node, "Int4GroupwiseGemmPlugin") || IsPlugin(node, "Int4GroupwiseGemmPluginV2"))
           && |node.inputs| >= 3 && IsDenseFfn(node.inputs[1], layerTypes)
           && (node.inputs[1] == n || node.inputs[2] == n)
    ensures n in FoundFor(g, "int4_moe", layerTypes, head) <==>
      && n in InitializerMap(g.initializers)
      && exists node ::
           && node in g.nodes && IsPlugin(node, "Int4MoePlugin")
           && |node.inputs| >= 5 && (node.inputs[2] == n || node.inputs[4] == n)
    ensures n in FoundFor(g, "nvfp4_moe", layerTypes, head) <==>
      && n in InitializerMap(g.initializers)
      && exists node ::
           && node in g.nodes && (IsPlugin(node, "Nvfp4MoePlugin") || IsPlugin(node, "NvFP4MoEPluginGeforce"))
           && n in node.inputs
    ensures n in FoundFor(g, "lm_head", layerTypes, head) <==> head == Some(n)
  {
    hide Collect, PicksOf, InitializerMap, IsDenseFfn;
    ScanExact(g, "int4_ffn", layerTypes);
    ScanExact(g, "int4_moe", layerTypes);
    ScanExact(g, "nvfp4_moe", layerTypes);
  }

  lemma UntakenNone(taken: set<string>)
    ensures Untaken([], taken) == []
  {
  }

  lemma UntakenNext(names: seq<string>, n: string, taken: set<string>)
    ensures Untaken(names + [n], taken) == Untaken(names, taken) + if n in taken then [] else [n]
  {
    assert (names + [n])[..|names|] == names;
  }

  /** Names that are not taken stay in order. */
  lemma {:induction false} UntakenAppend(a: seq<string>, b: seq<string>, taken: set<string>)
    ensures Untaken(a + b, taken) == Untaken(a, taken) + Untaken(b, taken)
    decreases |b|
  {
    hide Untaken;
    if b == [] {
      UntakenNone(taken);
      assert a + b == a && Untaken(a, taken) + [] == Untaken(a, taken);
    } else {
      var k := |b| - 1;
      UntakenAppend(a, b[..k], taken);
      UntakenNext(a + b[..k], b[k], taken);
      UntakenNext(b[..k], b[k], taken);
      assert a + b == a + b[..k] + [b[k]] && b == b[..k] + [b[k]];
      var last := if b[k] in taken then [] else [b[k]];
      assert Untaken(a, taken) + Untaken(b[..k], taken) + last == Untaken(a, taken) + (Untaken(b[..k], taken) + last);
    }
  }

  lemma PicksOfNext(nodes: seq<Node>, node: Node, kind: string, layerTypes: seq<string>)
    ensures PicksOf(nodes + [node], kind, layerTypes)
         == PicksOf(nodes, kind, layerTypes) + Picks(node, kind, layerTypes)
    ensures PicksOf([], kind, layerTypes) == []
  {
    hide Picks;
    assert (nodes + [node])[..|nodes|] == nodes;
  }

  /** The weights of nodes come in the order of the nodes. */
  lemma {:induction false} ScanOrder(a: seq<Node>, b: seq<Node>, kind: string, layerTypes: seq<string>)
    ensures PicksOf(a + b, kind, layerTypes) == PicksOf(a, kind, layerTypes) + PicksOf(b, kind, layerTypes)
    decreases |b|
  {
    hide PicksOf, Picks;
    var first := PicksOf(a, kind, layerTypes);
    if b == [] {
      PicksOfNext([], Node("", "", [], []), kind, layerTypes);
      assert a + b == a && first + [] == first;
    } else {
      var k := |b| - 1;
      ScanOrder(a, b[..k], kind, layerTypes);
      PicksOfNext(a + b[..k], b[k], kind, layerTypes);
      PicksOfNext(b[..k], b[k], kind, layerTypes);
      assert a + b == a + b[..k] + [b[k]] && b == b[..k] + [b[k]];
      var middle, last := PicksOf(b[..k], kind, layerTypes), Picks(b[k], kind, layerTypes);
      assert first + middle + last == first + (middle + last);
    }
  }

  /** The weights of one node come in the order of its inputs. */
  lemma PickedInputs(node: Node, kind: string, layerTypes: seq<string>)
    ensures var r := PicksOf([node], kind, layerTypes);
      && (kind == "int4_ffn" && r != [] ==> |node.inputs| > 2 && r == [node.inputs[1], node.inputs[2]])
      && (kind == "int4_moe" && r != [] ==> |node.inputs| > 4 && r == [node.inputs[2], node.inputs[4]])
      && (kind == "nvfp4_moe" && r != [] ==> r == node.inputs)
  {
    PicksOfNext([], node, kind, layerTypes);
    assert [] + [node] == [node];
    assert PicksOf([], kind, layerTypes) == [];
  }

  /** The names found for a kind; `head` is the LM-head weight, if there is one. */
  function FoundFor(g: Graph, kind: string, layerTypes: seq<string>, head: Option<string>): seq<string> {
    if kind == LM_HEAD then (if head.Some? then [head.value] else [])
    else Collect(PicksOf(g.nodes, kind, layerTypes), InitializerMap(g.initializers).Keys)
  }

  /** A manifest with one more file of names, those that no earlier file has; an empty file is left out. */
  function Extended(manifest: seq<ManifestEntry>, file: string, kind: string, names: seq<string>): seq<ManifestEntry> {
    var untaken := Untaken(names, NameSet(NamesOf(manifest)));
    if untaken == [] then manifest else manifest + [ManifestEntry(file, kind, untaken)]
  }

  /** The manifest for a list of kinds. */
  function Plan(g: Graph, kinds: seq<string>, layerTypes: seq<string>, head: Option<string>): seq<ManifestEntry> {
    if kinds == [] then []
    else
      var kind := kinds[|kinds| - 1];
      Extended(Plan(g, kinds[..|kinds| - 1], layerTypes, head), FileOf(kind), ManifestKind(kind),
               FoundFor(g, kind, layerTypes, head))
  }

  lemma {:induction false} NamesOfMembers(manifest: seq<ManifestEntry>, n: string)
    ensures n in NamesOf(manifest) <==> exists e :: e in manifest && n in e.tensors
  {
    if manifest != [] {
      var k := |manifest| - 1;
      NamesOfMembers(manifest[..k], n);
      assert manifest == manifest[..k] + [manifest[k]];
    }
  }

  lemma {:induction false} UntakenDistinct(names: seq<string>, taken: set<string>)
    requires Distinct(names)
    ensures Distinct(Untaken(names, taken))
  {
    if names != [] {
      UntakenDistinct(names[..|names| - 1], taken);
      assert names[|names| - 1] !in names[..|names| - 1];
    }
  }

  predicate HeadOk(g: Graph, head: Option<string>) {
    head.Some? ==> head.value in InitializerMap(g.initializers)
  }

  lemma FoundForInitializers(g: Graph, kind: string, layerTypes: seq<string>, head: Option<string>)
    requires HeadOk(g, head)
    ensures Distinct(FoundFor(g, kind, layerTypes, head))
    ensures forall n :: n in FoundFor(g, kind, layerTypes, head) ==> n in InitializerMap(g.initializers)
  {
    CollectExact(PicksOf(g.nodes, kind, layerTypes), InitializerMap(g.initializers).Keys);
  }

  /** No name is in two entries or twice in one; the names are initializers; and they are exactly the names found
      for some requested kind. */
  lemma {:induction false} PlanPartitions(g: Graph, kinds: seq<string>, layerTypes: seq<string>, head: Option<string>)
    requires HeadOk(g, head)
    ensures var names := NamesOf(Plan(g, kinds, layerTypes, head));
      && Distinct(names)
      && (forall n :: n in names ==> n in InitializerMap(g.initializers))
      && forall n :: n in names <==> exists k :: k in kinds && n in FoundFor(g, k, layerTypes, head)
  {
    hide FoundFor, FileOf, ManifestKind, Untaken, NamesOf, Distinct;
    if kinds == [] {
      assert NamesOf([]) == [] && Distinct([]) by {
        NoNames();
      }
    } else {
      var k := |kinds| - 1;
      var before := Plan(g, kinds[..k], layerTypes, head);
      var found := FoundFor(g, kinds[k], layerTypes, head);
      PlanPartitions(g, kinds[..k], layerTypes, head);
      FoundForInitializers(g, kinds[k], layerTypes, head);
      UntakenDistinct(found, NameSet(NamesOf(before)));
      PlanNames(g, kinds, layerTypes, head);
      DistinctAppend(NamesOf(before), Untaken(found, NameSet(NamesOf(before))));
      assert kinds == kinds[..k] + [kinds[k]];
    }
  }

  lemma NoNames()
    ensures NamesOf([]) == [] && Distinct([])
  {
  }

  /** One kind more adds the names it finds that are not taken. */
  lemma PlanNames(g: Graph, kinds: seq<string>, layerTypes: seq<string>, head: Option<string>)
    requires kinds != []
    ensures var before := NamesOf(Plan(g, kinds[..|kinds| - 1], layerTypes, head));
      NamesOf(Plan(g, kinds, layerTypes, head))
      == before + Untaken(FoundFor(g, kinds[|kinds| - 1], layerTypes, head), NameSet(before))
  {
    hide FoundFor, FileOf, ManifestKind, Untaken, NameSet;
    var before := Plan(g, kinds[..|kinds| - 1], layerTypes, head);
    var plan := Plan(g, kinds, layerTypes, head);
    if plan != before {
      assert plan[..|plan| - 1] == before;
    }
  }

  lemma DistinctAppend(a: seq<string>, b: seq<string>)
    requires Distinct(a) && Distinct(b) && forall n :: n in a ==> n !in b
    ensures Distinct(a + b)
  {
    forall i, j | 0 <= i < j < |a + b|
      ensures (a + b)[i] != (a + b)[j]
    {
      if i < |a| <= j {
        assert a[i] in a && b[j - |a|] in b;
      }
    }
  }

  lemma DistinctSplit(a: seq<string>, b: seq<string>, n: string)
    requires Distinct(a + b) && n in a
    ensures n !in b && Distinct(a)
  {
    var i :| 0 <= i < |a| && a[i] == n;
    forall j | 0 <= j < |b|
      ensures b[j] != n
    {
      assert (a + b)[i] != (a + b)[|a| + j];
    }
    forall i, j | 0 <= i < j < |a|
      ensures a[i] != a[j]
    {
      assert (a + b)[i] != (a + b)[j];
    }
  }

  /** Distinct names put the entries of a manifest apart. */
  lemma {:induction false} EntriesDisjoint(manifest: seq<ManifestEntry>, i: nat, j: nat, n: string)
    requires Distinct(NamesOf(manifest)) && i < j < |manifest| && n in manifest[i].tensors
    ensures n !in manifest[j].tensors
  {
    hide Distinct;
    var k := |manifest| - 1;
    var before := manifest[..k];
    assert before[i] in before;
    NamesOfMembers(before, n);
    DistinctSplit(NamesOf(before), manifest[k].tensors, n);
    if j < k {
      EntriesDisjoint(before, i, j, n);
    }
  }

  // -------------------------------------------------------------------------------------- the rewrite

  /** The inputs with one for each of `names` that is not there yet. */
  function WithInputs(inputs: seq<ValueInfo>, names: seq<string>, inits: Scope): seq<ValueInfo>
    requires forall n :: n in names ==> n in inits
  {
    if names == [] then inputs
    else
      var k := |names| - 1;
      var before := WithInputs(inputs, names[..k], inits);
      if names[k] in InputNames(before) then before
      else before + [ValueInfo(names[k], inits[names[k]].dtype, inits[names[k]].dims)]
  }

  /** The initializers whose names are not taken out. */
  function Retained(inits: seq<Initializer>, out: set<string>): seq<Initializer> {
    if inits == [] then []
    else
      var k := |inits| - 1;
      if inits[k].name in out then Retained(inits[..k], out) else Retained(inits[..k], out) + [inits[k]]
  }

  function Rewritten(g: Graph, names: seq<string>): Graph
    requires forall n :: n in names ==> n in InitializerMap(g.initializers)
  {
    Graph(g.nodes, Retained(g.initializers, NameSet(names)),
          WithInputs(g.inputs, names, InitializerMap(g.initializers)), g.outputs)
  }

  function Occurrences(inputs: seq<ValueInfo>, n: string): nat {
    if inputs == [] then 0
    else Occurrences(inputs[..|inputs| - 1], n) + if inputs[|inputs| - 1].name == n then 1 else 0
  }

  lemma {:induction false} OccursIffNamed(inputs: seq<ValueInfo>, n: string)
    ensures Occurrences(inputs, n) > 0 <==> n in InputNames(inputs)
  {
    if inputs != [] {
      var k := |inputs| - 1;
      OccursIffNamed(inputs[..k], n);
      assert forall i :: 0 <= i < k ==> inputs[..k][i] == inputs[i];
      assert inputs[k].name in InputNames(inputs);
    }
  }

  lemma InputNamesNext(inputs: seq<ValueInfo>, v: ValueInfo)
    ensures InputNames(inputs + [v]) == InputNames(inputs) + {v.name}
  {
    var s := inputs + [v];
    assert s[|inputs|] == v;
    assert forall i :: 0 <= i < |inputs| ==> s[i] == inputs[i];
    forall n | n in InputNames(inputs)
      ensures n in InputNames(s)
    {
      var i :| 0 <= i < |inputs| && inputs[i].name == n;
      assert s[i].name == n;
    }
  }

  /** The old inputs stay in front; an externalised name that was not an input is one now, once; no other name
      is added. */
  lemma {:induction false} InputsAdded(inputs: seq<ValueInfo>, names: seq<string>, inits: Scope, n: string)
    requires forall n :: n in names ==> n in inits
    ensures inputs <= WithInputs(inputs, names, inits)
    ensures InputNames(WithInputs(inputs, names, inits)) == InputNames(inputs) + NameSet(names)
    ensures Occurrences(WithInputs(inputs, names, inits), n)
         == if n in InputNames(inputs) then Occurrences(inputs, n) else if n in names then 1 else 0
  {
    hide InputNames;
    OccursIffNamed(inputs, n);
    if names != [] {
      var k := |names| - 1;
      InputsAdded(inputs, names[..k], inits, n);
      assert names == names[..k] + [names[k]];
      var before := WithInputs(inputs, names[..k], inits);
      if names[k] !in InputNames(before) {
        var v := ValueInfo(names[k], inits[names[k]].dtype, inits[names[k]].dims);
        InputNamesNext(before, v);
        OccursIffNamed(before, n);
        assert (before + [v])[..|before|] == before;
      }
    }
  }

  lemma RetainedNext(inits: seq<Initializer>, i: Initializer, out: set<string>)
    ensures Retained(inits + [i], out) == Retained(inits, out) + if i.name in out then [] else [i]
  {
    assert (inits + [i])[..|inits|] == inits;
  }

  /** What is taken out of a list is taken out of its parts, and the rest stays in order. */
  lemma {:induction false} RetainedAppend(a: seq<Initializer>, b: seq<Initializer>, out: set<string>)
    ensures Retained(a + b, out) == Retained(a, out) + Retained(b, out)
    decreases |b|
  {
    if b == [] {
      assert a + b == a;
    } else {
      hide Retained;
      var k := |b| - 1;
      RetainedAppend(a, b[..k], out);
      RetainedNext(a + b[..k], b[k], out);
      RetainedNext(b[..k], b[k], out);
      assert a + b == a + b[..k] + [b[k]] && b == b[..k] + [b[k]];
    }
  }

  /** Inputs are added name by name, each at the end. */
  lemma {:induction false} WithInputsAppend(inputs: seq<ValueInfo>, a: seq<string>, b: seq<string>, inits: Scope)
    requires (forall n :: n in a ==> n in inits) && forall n :: n in b ==> n in inits
    ensures WithInputs(inputs, a + b, inits) == WithInputs(WithInputs(inputs, a, inits), b, inits)
    decreases |b|
  {
    hide InputNames;
    if b == [] {
      assert a + b == a;
    } else {
      var k := |b| - 1;
      assert (a + b)[..|a| + k] == a + b[..k];
      WithInputsAppend(inputs, a, b[..k], inits);
    }
  }

  lemma WithInput(inputs: seq<ValueInfo>, n: string, inits: Scope)
    requires n in inits
    ensures WithInputs(inputs, [n], inits)
         == if n in InputNames(inputs) then inputs else inputs + [ValueInfo(n, inits[n].dtype, inits[n].dims)]
  {
    hide InputNames;
    assert [n][..0] == [];
    assert WithInputs(inputs, [], inits) == inputs;
  }

  /** There is one input named `n`, and it is declared with the type and the shape of `t`. */
  ghost predicate Declared(inputs: seq<ValueInfo>, n: string, t: Tensor) {
    exists i :: 0 <= i < |inputs| && inputs[i].name == n && inputs[i].dtype == t.dtype && inputs[i].dims == t.dims
      && forall k :: 0 <= k < |inputs| && inputs[k].name == n ==> k == i
  }

  /** A name that becomes an input is declared as its initializer is. */
  lemma {:induction false} InputDeclared(inputs: seq<ValueInfo>, names: seq<string>, inits: Scope, n: string)
    requires (forall n :: n in names ==> n in inits) && n in names && n !in InputNames(inputs)
    ensures Declared(WithInputs(inputs, names, inits), n, inits[n])
    decreases |names|
  {
    hide InputNames;
    var k := |names| - 1;
    var before, after := WithInputs(inputs, names[..k], inits), WithInputs(inputs, names, inits);
    InputsAdded(inputs, names[..k], inits, n);
    assert names == names[..k] + [names[k]];
    if n in names[..k] {
      InputDeclared(inputs, names[..k], inits, n);
      var i :| 0 <= i < |before| && before[i].name == n && before[i].dtype == inits[n].dtype
        && before[i].dims == inits[n].dims && forall k :: 0 <= k < |before| && before[k].name == n ==> k == i;
      NameInside(before, i);
      assert after[i] == before[i];
    } else {
      NotNamed(before, n);
      assert after[|before|].name == n;
    }
  }

  lemma NameInside(inputs: seq<ValueInfo>, i: nat)
    requires i < |inputs|
    ensures inputs[i].name in InputNames(inputs)
  {
  }

  lemma NotNamed(inputs: seq<ValueInfo>, n: string)
    requires n !in InputNames(inputs)
    ensures forall i :: 0 <= i < |inputs| ==> inputs[i].name != n
  {
  }

  /** Taking initializers out takes exactly their names out. */
  lemma {:induction false} RetainedMap(inits: seq<Initializer>, out: set<string>)
    ensures InitializerMap(Retained(inits, out)) == InitializerMap(inits) - out
  {
    if inits != [] {
      var k := |inits| - 1;
      RetainedMap(inits[..k], out);
      if inits[k].name !in out {
        var kept := Retained(inits[..k], out);
        assert (kept + [inits[k]])[..|kept|] == kept;
      }
    }
  }

  /** The rewritten graph, its new inputs bound to the written tensors, starts from the scope the original starts
      from, so it computes what the original computes: whatever the operators mean, and whatever is bound to the
      original's inputs. */
  lemma MeaningKept(g: Graph, names: seq<string>, bound: Scope, ops: Operators)
    requires forall n :: n in names ==> n in InitializerMap(g.initializers)
    requires bound.Keys <= InputNames(g.inputs)
    ensures Outputs(Rewritten(g, names), Chosen(names, InitializerMap(g.initializers)) + bound, ops)
         == Outputs(g, bound, ops)
  {
    hide InputNames, InitializerMap, Run, Retained, WithInputs;
    var inits := InitializerMap(g.initializers);
    InputsAdded(g.inputs, names, inits, "");
    RetainedMap(g.initializers, NameSet(names));
    var written := Chosen(names, inits);
    assert written.Keys == NameSet(names);
    RestrictAll(written + bound, InputNames(Rewritten(g, names).inputs));
    RestrictAll(bound, InputNames(g.inputs));
    MoveBindings(inits, NameSet(names), written, bound);
  }

  lemma RestrictAll(m: Scope, names: set<string>)
    requires m.Keys <= names
    ensures (map n | n in m && n in names :: m[n]) == m
  {
  }

  /** Binding what was taken out is as good as leaving it in. */
  lemma MoveBindings(inits: Scope, out: set<string>, written: Scope, bound: Scope)
    requires written.Keys == out <= inits.Keys && forall n :: n in out ==> written[n] == inits[n]
    ensures inits - out + (written + bound) == inits + bound
  {
  }

  // ------------------------------------------------------------------------------------ the operation

  /** Where the data of the initializers is, and what is needed to write it elsewhere. */
  datatype Origin = Origin(refs: map<string, DataRef>, data: Files, codec: Codec)
  {
    ghost predicate Fits(inits: Scope) {
      codec.Sound() && Backed(inits, refs, data)
    }

    /** A file of `names` can be written: streamed if all of them can be, else by the library. */
    ghost predicate Writable(names: seq<string>, inits: Scope)
      requires forall n :: n in names ==> n in inits
    {
      if CanStream(names, inits, refs) then Streams(codec, SourcesOf(names, inits, refs), data)
      else codec.save(Chosen(names, inits)).Some?
    }
  }

  /** The files of a directory. */
  class Directory {
    var files: Files

    constructor ()
      ensures files == map[]
    {
      files := map[];
    }

    /** `_write_external_weight_file`. What was written loads as the tensors. */
    method WriteWeights(file: string, names: seq<string>, inits: Scope, o: Origin) returns (ok: bool)
      requires o.Fits(inits) && Distinct(names) && forall n :: n in names ==> n in inits
      modifies this
      ensures ok <==> o.Writable(names, inits)
      ensures ok ==> file in files && o.codec.Load(files[file]) == Chosen(names, inits)
      ensures forall f :: f != file ==> (f in files <==> f in old(files)) && (f in files ==> files[f] == old(files)[f])
    {
      hide Codec.Load, Streams, Streamed, DataTo, HeaderTo, Padded, Complete, Codec.Sound;
      if CanStream(names, inits, o.refs) {
        var sources := SourcesOf(names, inits, o.refs);
        var outcome, out := WriteWeightFile(sources, o.data, o.codec.encode);
        StreamsIs(o.codec, sources, o.data);
        files := files[file := out.bytes];
        ok := outcome == Outcome.Written;
        if ok {
          StreamLoads(o.codec, names, inits, o.refs, o.data);
        }
      } else {
        var bytes := o.codec.save(Chosen(names, inits));
        ok := bytes.Some?;
        if ok {
          SaveLoads(o.codec, Chosen(names, inits));
          files := files[file := bytes.value];
        }
      }
    }
  }

  lemma SaveLoads(c: Codec, m: Scope)
    requires c.Sound() && c.save(m).Some?
    ensures c.Load(c.save(m).value) == m
  {
  }

  lemma StreamsIs(c: Codec, sources: seq<Source>, data: Files)
    requires AllKnown(sources)
    ensures Streams(c, sources, data) <==>
      && |Padded(c.encode(HeaderTo(sources, |sources|)))| < Power256(8)
      && forall k :: 0 <= k < |sources| ==> Complete(data, sources[k].data.value)
    ensures var header := Padded(c.encode(HeaderTo(sources, |sources|)));
      Streamed(c, sources, data) == LittleEndian(|header|, 8) + header + DataTo(data, sources, |sources|)
  {
  }

  /** Every entry's file loads as the initial values of the entry's tensors. */
  ghost predicate FilesHold(manifest: seq<ManifestEntry>, files: Files, inits: Scope, c: Codec) {
    forall e :: e in manifest ==>
      && e.file in files && (forall n :: n in e.tensors ==> n in inits)
      && c.Load(files[e.file]) == Chosen(e.tensors, inits)
  }

  /** One file was written: the others are as they were, and it loads as `names`. */
  ghost predicate FileAdded(files: Files, files': Files, file: string, names: seq<string>,
                            inits: Scope, c: Codec)
    requires forall n :: n in names ==> n in inits
  {
    && (forall f :: f in files && f != file ==> f in files' && files'[f] == files[f])
    && (names == [] ==> files' == files)
    && (names != [] ==> file in files' && c.Load(files'[file]) == Chosen(names, inits))
  }

  lemma NothingAdded(files: Files, file: string, inits: Scope, c: Codec)
    ensures FileAdded(files, files, file, [], inits, c)
  {
  }

  lemma OneAdded(files: Files, files': Files, file: string, names: seq<string>, inits: Scope, c: Codec)
    requires names != [] && forall n :: n in names ==> n in inits
    requires file in files' && c.Load(files'[file]) == Chosen(names, inits)
    requires forall f :: f != file ==> (f in files' <==> f in files) && (f in files' ==> files'[f] == files[f])
    ensures FileAdded(files, files', file, names, inits, c)
  {
    hide Codec.Load, Chosen;
  }

  /** How the manifest and its names grow by a file. */
  lemma ExtendedIs(manifest: seq<ManifestEntry>, file: string, kind: string, names: seq<string>)
    ensures var untaken := Untaken(names, NameSet(NamesOf(manifest)));
      var more := manifest + [ManifestEntry(file, kind, untaken)];
      && Extended(manifest, file, kind, names) == (if untaken == [] then manifest else more)
      && NamesOf(more) == NamesOf(manifest) + untaken
      && NameSet(NamesOf(more)) == NameSet(NamesOf(manifest)) + NameSet(untaken)
  {
    hide Untaken, NameSet;
    var untaken := Untaken(names, NameSet(NamesOf(manifest)));
    NamesOfMore(manifest, ManifestEntry(file, kind, untaken));
    NameSetMore(NamesOf(manifest), untaken);
  }

  lemma NamesOfMore(manifest: seq<ManifestEntry>, e: ManifestEntry)
    ensures NamesOf(manifest + [e]) == NamesOf(manifest) + e.tensors
  {
    assert (manifest + [e])[..|manifest|] == manifest;
  }

  lemma NameSetMore(a: seq<string>, b: seq<string>)
    ensures NameSet(a + b) == NameSet(a) + NameSet(b)
  {
  }

  lemma FilesHoldNext(manifest: seq<ManifestEntry>, files: Files, files': Files, inits: Scope,
                      c: Codec, file: string, kind: string, names: seq<string>)
    requires FilesHold(manifest, files, inits, c) && forall n :: n in names ==> n in inits
    requires forall e :: e in manifest ==> e.file != file
    requires FileAdded(files, files', file, Untaken(names, NameSet(NamesOf(manifest))), inits, c)
    ensures FilesHold(Extended(manifest, file, kind, names), files', inits, c)
  {
    hide Codec.Load;
  }

  /** The local state of `externalize_model_weights`. */
  class Externalizer {
    var graph: Graph
    var manifest: seq<ManifestEntry>
    var externalNames: seq<string>
    var externalNameSet: set<string>
    const initializers: Scope
    const directory: Directory
    const origin: Origin

    constructor (g: Graph, d: Directory, o: Origin)
      ensures graph == g && directory == d && origin == o && initializers == InitializerMap(g.initializers)
      ensures manifest == [] && externalNames == [] && externalNameSet == {}
    {
      graph := g;
      directory := d;
      origin := o;
      initializers := InitializerMap(g.initializers);
      manifest, externalNames, externalNameSet := [], [], {};
    }

    ghost predicate Valid()
      reads this
    {
      externalNames == NamesOf(manifest) && externalNameSet == NameSet(externalNames)
    }

    /** `add_external_weight_file`: fails exactly when there is something to write and it cannot be written. */
    method AddExternalWeightFile(file: string, names: seq<string>, kind: string) returns (ok: bool)
      requires Valid() && origin.Fits(initializers) && Distinct(names) && forall n :: n in names ==> n in initializers
      modifies this, directory
      ensures Valid() && graph == old(graph)
      ensures var untaken := Untaken(names, NameSet(NamesOf(old(manifest))));
        && (ok <==> untaken == [] || origin.Writable(untaken, initializers))
        && (ok ==> FileAdded(old(directory.files), directory.files, file, untaken, initializers, origin.codec))
      ensures ok ==> manifest == Extended(old(manifest), file, kind, names)
    {
      hide Distinct, Codec.Load, Origin.Fits, Origin.Writable, Untaken, NamesOf, NameSet, Extended, FileAdded, Chosen;
      ok := true;
      var newNames := Untaken(names, externalNameSet);
      ExtendedIs(manifest, file, kind, names);
      if newNames == [] {
        NothingAdded(directory.files, file, initializers, origin.codec);
        return;
      }
      UntakenDistinct(names, externalNameSet);
      ghost var before := directory.files;
      ok := directory.WriteWeights(file, newNames, initializers, origin);
      if ok {
        OneAdded(before, directory.files, file, newNames, initializers, origin.codec);
        externalNames := externalNames + newNames;
        externalNameSet := externalNameSet + NameSet(newNames);
        manifest := manifest + [ManifestEntry(file, kind, newNames)];
      }
    }

    /** `_add_external_weight_inputs`. */
    method AddExternalWeightInputs()
      requires forall n :: n in externalNames ==> n in initializers
      modifies `graph
      ensures graph == old(graph).(inputs := WithInputs(old(graph).inputs, externalNames, initializers))
    {
      hide InputNames;
      var inputs, inputNames := graph.inputs, InputNames(graph.inputs);
      var i := 0;
      while i < |externalNames|
        invariant 0 <= i <= |externalNames| && graph == old(graph)
        invariant inputs == WithInputs(graph.inputs, externalNames[..i], initializers)
        invariant inputNames == InputNames(inputs)
      {
        var name := externalNames[i];
        assert externalNames[..i + 1][..i] == externalNames[..i];
        if name !in inputNames {
          var v := ValueInfo(name, initializers[name].dtype, initializers[name].dims);
          InputNamesNext(inputs, v);
          inputs := inputs + [v];
          inputNames := inputNames + {name};
        }
        i := i + 1;
      }
      assert externalNames[..i] == externalNames;
      graph := graph.(inputs := inputs);
    }

    /** `_remove_externalized_initializers`. */
    method RemoveExternalizedInitializers()
      modifies `graph
      ensures graph == old(graph).(initializers := Retained(old(graph).initializers, NameSet(externalNames)))
    {
      var retained := [];
      var i := 0;
      while i < |graph.initializers|
        invariant graph == old(graph) && 0 <= i <= |graph.initializers|
        invariant retained == Retained(graph.initializers[..i], NameSet(externalNames))
      {
        var init := graph.initializers[i];
        assert graph.initializers[..i + 1][..i] == graph.initializers[..i];
        if init.name !in externalNames {
          retained := retained + [init];
        }
        i := i + 1;
      }
      assert graph.initializers[..i] == graph.initializers;
      graph := graph.(initializers := retained);
    }
  }

  /** Every file of the plan belongs to one of its kinds. */
  lemma {:induction false} PlanFiles(g: Graph, kinds: seq<string>, layerTypes: seq<string>, head: Option<string>,
                                     e: ManifestEntry)
    requires e in Plan(g, kinds, layerTypes, head)
    ensures exists k :: k in kinds && e.file == FileOf(k) && e.kind == ManifestKind(k)
  {
    hide FoundFor, FileOf, ManifestKind, Untaken;
    var k := |kinds| - 1;
    if e in Plan(g, kinds[..k], layerTypes, head) {
      PlanFiles(g, kinds[..k], layerTypes, head, e);
      var j :| j in kinds[..k] && e.file == FileOf(j) && e.kind == ManifestKind(j);
      assert j in kinds;
    } else {
      assert kinds[k] in kinds;
    }
  }

  /** Which file and which manifest entry each kind has. */
  lemma PlanWhere(g: Graph, kinds: seq<string>, layerTypes: seq<string>, head: Option<string>, e: ManifestEntry)
    requires e in Plan(g, kinds, layerTypes, head) && forall k :: k in kinds ==> k in KINDS
    ensures
      || ("int4_ffn" in kinds && e.file == "external_int4_ffn_weights.safetensors" && e.kind == "int4_ffn_weights")
      || ("int4_moe" in kinds && e.file == "external_int4_moe_weights.safetensors" && e.kind == "int4_moe_weights")
      || ("nvfp4_moe" in kinds && e.file == "external_nvfp4_moe_weights.safetensors" && e.kind == "nvfp4_moe_weights")
      || ("lm_head" in kinds && e.file == "external_lm_head_weight.safetensors" && e.kind == "lm_head_weight")
  {
    hide Plan;
    PlanFiles(g, kinds, layerTypes, head, e);
  }

  /** `all` asks for the four kinds, in this order, and each kind for itself. */
  lemma KindsAsked(kind: string, r: Resolution)
    requires Resolves(One(kind), r)
    ensures kind == "all" ==> r == Kinds(["int4_ffn", "int4_moe", "nvfp4_moe", "lm_head"])
    ensures kind in ["int4_ffn", "int4_moe", "nvfp4_moe", "lm_head"] ==> r == Kinds([kind])
    ensures kind !in ["all", "int4_ffn", "int4_moe", "nvfp4_moe", "lm_head"] ==> r == Unsupported(kind)
  {
    var values := Values(One(kind));
    if IsKind(kind) {
      assert values[..0] == [] && kind in KindSet();
      assert Collect([], KindSet()) == [];
      assert Collect([kind], KindSet()) == [kind];
    } else {
      assert FirstOther(values, 0);
    }
  }

  /** The files of different kinds differ, so a new kind's file overwrites none. */
  lemma FileUnused(g: Graph, kinds: seq<string>, layerTypes: seq<string>, head: Option<string>, kind: string)
    requires kind in KINDS && kind !in kinds && forall k :: k in kinds ==> k in KINDS
    ensures forall e :: e in Plan(g, kinds, layerTypes, head) ==> e.file != FileOf(kind)
  {
    forall e | e in Plan(g, kinds, layerTypes, head)
      ensures e.file != FileOf(kind)
    {
      PlanFiles(g, kinds, layerTypes, head, e);
      var k :| k in kinds && e.file == FileOf(k);
      FilesDiffer(k, kind);
    }
  }

  lemma FilesDiffer(k: string, kind: string)
    requires k in KINDS && kind in KINDS && k != kind
    ensures FileOf(k) != FileOf(kind)
  {
    assert |FileOf(INT4_FFN)| == |FileOf(INT4_MOE)| == 37 && FileOf(INT4_FFN)[14] != FileOf(INT4_MOE)[14];
    assert |FileOf(NVFP4_MOE)| == 38 && |FileOf(LM_HEAD)| == 35;
  }

  lemma PlanNext(g: Graph, kinds: seq<string>, i: nat, layerTypes: seq<string>, head: Option<string>)
    requires i < |kinds|
    ensures Plan(g, kinds[..i + 1], layerTypes, head)
         == Extended(Plan(g, kinds[..i], layerTypes, head), FileOf(kinds[i]), ManifestKind(kinds[i]),
                     FoundFor(g, kinds[i], layerTypes, head))
  {
    assert kinds[..i + 1][..i] == kinds[..i];
  }

  /** The plan for the first kinds is the start of the plan for all. */
  lemma {:induction false} PlanPrefix(g: Graph, kinds: seq<string>, i: nat, layerTypes: seq<string>,
                                      head: Option<string>)
    requires i <= |kinds|
    ensures Plan(g, kinds[..i], layerTypes, head) <= Plan(g, kinds, layerTypes, head)
    decreases |kinds|
  {
    hide FoundFor, FileOf, ManifestKind, Untaken;
    if i < |kinds| {
      var most := kinds[..|kinds| - 1];
      PlanPrefix(g, most, i, layerTypes, head);
      assert most[..i] == kinds[..i];
    } else {
      assert kinds[..i] == kinds;
    }
  }

  /** The initializers found for one kind. */
  method FindFor(g: Graph, kind: string, layerTypes: seq<string>, shapes: Shapes, ghost rank: string -> nat)
    returns (names: seq<string>)
    requires Ranked(ProducerMap(g.nodes), rank) && UniqueNames(g.initializers)
    ensures names == FoundFor(g, kind, layerTypes, LmHeadWeight(g, shapes, rank))
  {
    if kind == LM_HEAD {
      var found := FindLmHeadWeight(g, shapes, rank);
      names := if found.Some? then [found.value] else [];
    } else {
      names := FindWeightInitializers(g, kind, layerTypes);
    }
  }

  /** Every entry of a manifest can be written. */
  ghost predicate AllWritable(manifest: seq<ManifestEntry>, inits: Scope, o: Origin) {
    forall e :: e in manifest ==> (forall n :: n in e.tensors ==> n in inits) && o.Writable(e.tensors, inits)
  }

  /** The loop of `externalize_model_weights` over a resolved request. It succeeds exactly when all files of the plan
      can be written; then the manifest is the plan, its files load as the initial values, and the graph is
      rewritten for its names. */
  method ExternalizeKinds(g: Graph, kinds: seq<string>, layerTypes: seq<string>, shapes: Shapes, d: Directory,
                          o: Origin, ghost rank: string -> nat)
    returns (ok: bool, manifest: seq<ManifestEntry>, result: Graph)
    requires Ranked(ProducerMap(g.nodes), rank) && UniqueNames(g.initializers)
    requires o.Fits(InitializerMap(g.initializers))
    requires Distinct(kinds) && forall k :: k in kinds ==> k in KINDS
    modifies d
    ensures var plan := Plan(g, kinds, layerTypes, LmHeadWeight(g, shapes, rank));
      && (ok <==> AllWritable(plan, InitializerMap(g.initializers), o))
      && (ok ==> manifest == plan)
    ensures ok ==> FilesHold(manifest, d.files, InitializerMap(g.initializers), o.codec)
    ensures ok ==> forall n :: n in NamesOf(manifest) ==> n in InitializerMap(g.initializers)
    ensures ok ==> result == Rewritten(g, NamesOf(manifest))
    ensures ok ==> forall n :: n in NamesOf(manifest) && n !in InputNames(g.inputs) ==>
      Declared(result.inputs, n, InitializerMap(g.initializers)[n])
  {
    hide FoundFor, Extended, FileOf, ManifestKind, Untaken, UniqueNames, Ranked, FilesHold, Plan, FileAdded, NameSet;
    hide WithInputs, Retained, NamesOf, LmHeadWeight, Origin.Fits, Origin.Writable, AllWritable, Distinct;
    ghost var head := LmHeadWeight(g, shapes, rank);
    var x := new Externalizer(g, d, o);
    manifest, result := [], g;
    HeadIsInitializer(g, shapes, rank);
    NothingYet(g, layerTypes, head, d.files, o);
    var i := 0;
    while i < |kinds|
      invariant 0 <= i <= |kinds| && fresh(x) && x.Valid()
      invariant x.graph == g && x.directory == d && x.origin == o && x.initializers == InitializerMap(g.initializers)
      invariant x.manifest == Plan(g, kinds[..i], layerTypes, head)
      invariant FilesHold(x.manifest, d.files, x.initializers, o.codec) && AllWritable(x.manifest, x.initializers, o)
    {
      ok := ExternalizeKind(x, g, kinds, i, layerTypes, shapes, d, o, rank);
      if !ok {
        return;
      }
      i := i + 1;
    }
    assert kinds[..i] == kinds;
    PlanPartitions(g, kinds, layerTypes, head);
    ok := true;
    manifest := x.manifest;
    if x.externalNames == [] {
      RewrittenNothing(g);
      return;
    }
    x.AddExternalWeightInputs();
    x.RemoveExternalizedInitializers();
    result := x.graph;
    AllDeclared(g, NamesOf(manifest));
  }

  /** One kind. If its file cannot be written, the plan as a whole cannot be. */
  method ExternalizeKind(x: Externalizer, g: Graph, kinds: seq<string>, i: nat, layerTypes: seq<string>, shapes: Shapes,
                         d: Directory, o: Origin, ghost rank: string -> nat)
    returns (ok: bool)
    requires Ranked(ProducerMap(g.nodes), rank) && UniqueNames(g.initializers)
    requires o.Fits(InitializerMap(g.initializers)) && i < |kinds|
    requires Distinct(kinds) && forall k :: k in kinds ==> k in KINDS
    requires x.Valid() && x.graph == g && x.directory == d && x.origin == o
    requires x.initializers == InitializerMap(g.initializers)
    requires x.manifest == Plan(g, kinds[..i], layerTypes, LmHeadWeight(g, shapes, rank))
    requires FilesHold(x.manifest, d.files, x.initializers, o.codec) && AllWritable(x.manifest, x.initializers, o)
    modifies x, d
    ensures ok ==> x.Valid() && x.graph == g
    ensures ok ==> x.manifest == Plan(g, kinds[..i + 1], layerTypes, LmHeadWeight(g, shapes, rank))
    ensures ok ==> FilesHold(x.manifest, d.files, x.initializers, o.codec) && AllWritable(x.manifest, x.initializers, o)
    ensures !ok ==> !AllWritable(Plan(g, kinds, layerTypes, LmHeadWeight(g, shapes, rank)), x.initializers, o)
  {
    hide FoundFor, Extended, FileOf, ManifestKind, Untaken, UniqueNames, Ranked, FilesHold, Plan, FileAdded, NameSet;
    hide NamesOf, LmHeadWeight, Origin.Fits, Origin.Writable, AllWritable;
    ghost var head, before, files := LmHeadWeight(g, shapes, rank), x.manifest, d.files;
    var kind := kinds[i];
    var names := FindFor(g, kind, layerTypes, shapes, rank);
    HeadIsInitializer(g, shapes, rank);
    FoundForInitializers(g, kind, layerTypes, head);
    assert kind !in kinds[..i];
    FileUnused(g, kinds[..i], layerTypes, head, kind);
    PlanNext(g, kinds, i, layerTypes, head);
    ok := x.AddExternalWeightFile(FileOf(kind), names, ManifestKind(kind));
    ExtendedWritable(before, FileOf(kind), ManifestKind(kind), names, x.initializers, o);
    PlanPrefix(g, kinds, i + 1, layerTypes, head);
    if ok {
      FilesHoldNext(before, files, d.files, x.initializers, o.codec, FileOf(kind), ManifestKind(kind), names);
    } else {
      PrefixWritable(Plan(g, kinds[..i + 1], layerTypes, head), Plan(g, kinds, layerTypes, head), x.initializers, o);
    }
  }

  lemma ExtendedWritable(manifest: seq<ManifestEntry>, file: string, kind: string, names: seq<string>, inits: Scope,
                         o: Origin)
    requires AllWritable(manifest, inits, o) && forall n :: n in names ==> n in inits
    ensures var untaken := Untaken(names, NameSet(NamesOf(manifest)));
      AllWritable(Extended(manifest, file, kind, names), inits, o) <==> untaken == [] || o.Writable(untaken, inits)
  {
    hide Origin.Writable;
    var untaken := Untaken(names, NameSet(NamesOf(manifest)));
    var e := ManifestEntry(file, kind, untaken);
    assert untaken != [] ==> e in Extended(manifest, file, kind, names);
  }

  lemma PrefixWritable(a: seq<ManifestEntry>, b: seq<ManifestEntry>, inits: Scope, o: Origin)
    requires a <= b
    ensures AllWritable(b, inits, o) ==> AllWritable(a, inits, o)
  {
    hide Origin.Writable;
    assert forall e :: e in a ==> e in b;
  }

  /** `externalize_model_weights`. An unsupported request changes nothing. */
  method ExternalizeModelWeights(g: Graph, request: Request, layerTypes: seq<string>, shapes: Shapes, d: Directory,
                                 o: Origin, ghost rank: string -> nat)
    returns (r: Resolution, ok: bool, manifest: seq<ManifestEntry>, result: Graph)
    requires Ranked(ProducerMap(g.nodes), rank) && UniqueNames(g.initializers)
    requires o.Fits(InitializerMap(g.initializers))
    modifies d
    ensures Resolves(request, r)
    ensures r.Unsupported? ==> !ok && d.files == old(d.files)
    ensures r.Kinds? ==>
      var plan := Plan(g, r.kinds, layerTypes, LmHeadWeight(g, shapes, rank));
      && (ok <==> AllWritable(plan, InitializerMap(g.initializers), o))
      && (ok ==> manifest == plan)
    ensures ok ==> FilesHold(manifest, d.files, InitializerMap(g.initializers), o.codec)
    ensures ok ==> forall n :: n in NamesOf(manifest) ==> n in InitializerMap(g.initializers)
    ensures ok ==> result == Rewritten(g, NamesOf(manifest))
    ensures ok ==> forall n :: n in NamesOf(manifest) && n !in InputNames(g.inputs) ==>
      Declared(result.inputs, n, InitializerMap(g.initializers)[n])
  {
    hide Plan, Resolves, UniqueNames, Ranked, LmHeadWeight, AllWritable, FilesHold, Origin.Fits;
    r := ResolveExternalizeWeights(request);
    ok, manifest, result := false, [], g;
    if r.Kinds? {
      ok, manifest, result := ExternalizeKinds(g, r.kinds, layerTypes, shapes, d, o, rank);
    }
  }

  lemma HeadIsInitializer(g: Graph, shapes: Shapes, rank: string -> nat)
    requires Ranked(ProducerMap(g.nodes), rank) && UniqueNames(g.initializers)
    ensures HeadOk(g, LmHeadWeight(g, shapes, rank))
  {
    LmHeadWeightIsCandidate(g, shapes, rank);
  }

  lemma NothingYet(g: Graph, layerTypes: seq<string>, head: Option<string>, files: Files, o: Origin)
    ensures Plan(g, [], layerTypes, head) == [] && FilesHold([], files, InitializerMap(g.initializers), o.codec)
    ensures AllWritable([], InitializerMap(g.initializers), o) && NamesOf([]) == [] && NameSet([]) == {}
  {
  }

  lemma AllDeclared(g: Graph, names: seq<string>)
    requires forall n :: n in names ==> n in InitializerMap(g.initializers)
    ensures forall n :: n in names && n !in InputNames(g.inputs) ==>
      Declared(Rewritten(g, names).inputs, n, InitializerMap(g.initializers)[n])
  {
    hide Declared, WithInputs, Retained;
    forall n | n in names && n !in InputNames(g.inputs)
      ensures Declared(Rewritten(g, names).inputs, n, InitializerMap(g.initializers)[n])
    {
      InputDeclared(g.inputs, names, InitializerMap(g.initializers), n);
    }
  }

  /** Rewriting for no names changes nothing, so saving can be skipped. */
  lemma RewrittenNothing(g: Graph)
    ensures Rewritten(g, []) == g
  {
    RetainedAll(g.initializers);
  }

  lemma {:induction false} RetainedAll(inits: seq<Initializer>)
    ensures Retained(inits, NameSet([])) == inits
  {
    if inits != [] {
      RetainedAll(inits[..|inits| - 1]);
    }
  }

  // -------------------------------------------------------------------------------- loading it again

  /** What a runtime binds that loads every file of a manifest. */
  function Loaded(manifest: seq<ManifestEntry>, files: Files, c: Codec): Scope
    requires forall e :: e in manifest ==> e.file in files
  {
    if manifest == [] then map[]
    else Loaded(manifest[..|manifest| - 1], files, c) + c.Load(files[manifest[|manifest| - 1].file])
  }

  lemma {:induction false} LoadedIsChosen(manifest: seq<ManifestEntry>, files: Files, inits: Scope, c: Codec)
    requires FilesHold(manifest, files, inits, c)
    ensures forall n :: n in NamesOf(manifest) ==> n in inits
    ensures Loaded(manifest, files, c) == Chosen(NamesOf(manifest), inits)
  {
    hide Codec.Load;
    if manifest != [] {
      var k := |manifest| - 1;
      assert forall e :: e in manifest[..k] ==> e in manifest;
      assert manifest[k] in manifest;
      LoadedIsChosen(manifest[..k], files, inits, c);
    }
  }

  /** The exported model means what the original means: with the tensors bound that are read back from the bytes of
      the files its manifest names, it gives the original's outputs. */
  lemma ExportKeepsMeaning(g: Graph, manifest: seq<ManifestEntry>, files: Files, c: Codec, bound: Scope, ops: Operators)
    requires FilesHold(manifest, files, InitializerMap(g.initializers), c) && bound.Keys <= InputNames(g.inputs)
    ensures forall n :: n in NamesOf(manifest) ==> n in InitializerMap(g.initializers)
    ensures Outputs(Rewritten(g, NamesOf(manifest)), Loaded(manifest, files, c) + bound, ops) == Outputs(g, bound, ops)
  {
    hide FilesHold, Loaded, Chosen, Outputs;
    LoadedIsChosen(manifest, files, InitializerMap(g.initializers), c);
    MeaningKept(g, NamesOf(manifest), bound, ops);
  }

  /** A new input is declared with the type and the shape of the tensor that is loaded for it. */
  lemma DeclaredAsLoaded(g: Graph, manifest: seq<ManifestEntry>, files: Files, c: Codec, n: string)
    requires FilesHold(manifest, files, InitializerMap(g.initializers), c)
    requires n in NamesOf(manifest) && n !in InputNames(g.inputs)
    ensures forall m :: m in NamesOf(manifest) ==> m in InitializerMap(g.initializers)
    ensures n in Loaded(manifest, files, c)
    ensures Declared(Rewritten(g, NamesOf(manifest)).inputs, n, Loaded(manifest, files, c)[n])
  {
    hide FilesHold, Loaded, Declared, Codec.Load;
    LoadedIsChosen(manifest, files, InitializerMap(g.initializers), c);
    AllDeclared(g, NamesOf(manifest));
  }

  /** An externalised name leaves the initializers and occurs once among the inputs, if it was not one before. */
  lemma NamesMove(g: Graph, names: seq<string>, n: string)
    requires (forall n :: n in names ==> n in InitializerMap(g.initializers)) && n in names
    ensures n !in InitializerMap(Rewritten(g, names).initializers)
    ensures n !in InputNames(g.inputs) ==> Occurrences(Rewritten(g, names).inputs, n) == 1
    ensures n in InputNames(Rewritten(g, names).inputs)
  {
    hide InputNames;
    RetainedMap(g.initializers, NameSet(names));
    InputsAdded(g.inputs, names, InitializerMap(g.initializers), n);
  }
}
