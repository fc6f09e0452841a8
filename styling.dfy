/**
 * Style layers and their resolution (rendermaps/style.go `newStyler`,
 * `GetStyleFor`, `GetPaintProperty`).
 *
 * The layers arrive already decoded from the style document. `newStyler`
 * indexes them by id (a later layer with the same id replaces an earlier one),
 * then walks them in document order: a layer whose `ref` names a known id
 * copies `type`, `source-layer`, `filter` and `paint` from that layer for each
 * of those fields it left empty, its filter is compiled, and it is appended to
 * the list of its (resolved) source layer. The Go layers are pointers patched
 * in place, so a `ref` to an earlier layer sees that layer already resolved,
 * while a `ref` to a later layer (or to itself) sees it as decoded.
 */
module Styling {

  import opened Wrappers
  import opened Filters
  import opened Seqs

  /** A layer as decoded from the style document; `None` stands for a JSON field that is absent or null. */
  datatype LayerDef = LayerDef(
    id: string,
    kind: string,
    sourceLayer: string,
    ref: string,
    filter: Option<seq<Json>>,
    paint: Option<map<string, Json>>,
    minZoom: real,
    maxZoom: real)

  /** A resolved layer together with its compiled filter (`AppliesTo`). */
  datatype StyleLayer = StyleLayer(def: LayerDef, appliesTo: Filter)

  datatype Styler = Styler(styleByLayer: map<string, seq<StyleLayer>>)

  /** `styleByID`: the index of the last layer carrying each id. */
  function IdIndex(defs: seq<LayerDef>): (m: map<string, nat>)
    ensures forall id | id in m :: m[id] < |defs| && defs[m[id]].id == id
    ensures forall i | 0 <= i < |defs| :: defs[i].id in m && i <= m[defs[i].id]
  {
    if defs == [] then map[]
    else
      var init := defs[..|defs| - 1];
      assert forall i | 0 <= i < |init| :: init[i] == defs[i];
      IdIndex(init)[defs[|defs| - 1].id := |defs| - 1]
  }

  /** Every field the referencing layer left unset, taken from the referenced one. */
  function Inherit(layer: LayerDef, from: LayerDef): LayerDef {
    layer.(
      kind := if layer.kind == "" then from.kind else layer.kind,
      sourceLayer := if layer.sourceLayer == "" then from.sourceLayer else layer.sourceLayer,
      filter := if layer.filter.None? then from.filter else layer.filter,
      paint := if layer.paint.None? then from.paint else layer.paint)
  }

  /** The in-place update of layer `i`, reading the current state of its reference. */
  function ResolveStep(cur: seq<LayerDef>, byId: map<string, nat>, i: nat): (r: seq<LayerDef>)
    requires i < |cur| && forall id | id in byId :: byId[id] < |cur|
    ensures |r| == |cur|
    ensures forall j | 0 <= j < |cur| && j != i :: r[j] == cur[j]
    ensures r[i].id == cur[i].id && r[i].ref == cur[i].ref
    ensures r[i].minZoom == cur[i].minZoom && r[i].maxZoom == cur[i].maxZoom
  {
    var layer := cur[i];
    if layer.ref != "" && layer.ref in byId then cur[i := Inherit(layer, cur[byId[layer.ref]])]
    else cur
  }

  /** The layer list after the first `n` iterations of the resolution loop. */
  function ResolvedUpTo(defs: seq<LayerDef>, n: nat): (r: seq<LayerDef>)
    requires n <= |defs|
    ensures |r| == |defs|
  {
    if n == 0 then defs else ResolveStep(ResolvedUpTo(defs, n - 1), IdIndex(defs), n - 1)
  }

  function Resolved(defs: seq<LayerDef>): (r: seq<LayerDef>)
    ensures |r| == |defs|
  {
    ResolvedUpTo(defs, |defs|)
  }

  /** The filter array handed to `compileFilter`; nil reads as empty. */
  function FilterOf(layer: LayerDef): seq<Json> {
    layer.filter.GetOr([])
  }

  predicate AllCompile(layers: seq<LayerDef>) {
    forall i | 0 <= i < |layers| :: Compiles(FilterOf(layers[i]))
  }

  function CompileLayers(layers: seq<LayerDef>): (r: seq<StyleLayer>)
    requires AllCompile(layers)
    ensures |r| == |layers|
    ensures forall i | 0 <= i < |layers| :: r[i] == StyleLayer(layers[i], Compile(FilterOf(layers[i])).value)
  {
    if layers == [] then [] else CompileLayers(layers[..|layers| - 1]) + [StyleLayer(layers[|layers| - 1], Compile(FilterOf(layers[|layers| - 1])).value)]
  }

  /** The layers registered under source layer `name`, in document order. */
  function Under(ls: seq<StyleLayer>, name: string): seq<StyleLayer> {
    if ls == [] then []
    else (if ls[0].def.sourceLayer == name then [ls[0]] else []) + Under(ls[1..], name)
  }

  /** `styleByLayer` after appending every layer under its source layer, in order. */
  function Group(ls: seq<StyleLayer>): map<string, seq<StyleLayer>> {
    if ls == [] then map[]
    else
      var g := Group(ls[..|ls| - 1]);
      var l := ls[|ls| - 1];
      g[l.def.sourceLayer := (if l.def.sourceLayer in g then g[l.def.sourceLayer] else []) + [l]]
  }

  /** The first loop of `newStyler`: index the layers by id, later ones winning. */
  method IndexById(defs: seq<LayerDef>) returns (byId: map<string, nat>)
    ensures byId == IdIndex(defs)
  {
    byId := map[];
    var i := 0;
    while i < |defs|
      invariant 0 <= i <= |defs|
      invariant byId == IdIndex(defs[..i])
    {
      IdIndexSnoc(defs, i);
      byId := byId[defs[i].id := i];
      i := i + 1;
    }
    assert defs[..|defs|] == defs;
  }

  lemma IdIndexSnoc(defs: seq<LayerDef>, i: nat)
    requires i < |defs|
    ensures IdIndex(defs[..i + 1]) == IdIndex(defs[..i])[defs[i].id := i]
  {
    assert defs[..i + 1][..i] == defs[..i];
  }

  /** The body of the resolution loop for layer `i`: fill unset fields from the referenced layer. */
  method ResolveLayer(layers: seq<LayerDef>, byId: map<string, nat>, i: nat) returns (layer: LayerDef)
    requires i < |layers| && forall id | id in byId :: byId[id] < |layers|
    ensures layer == ResolveStep(layers, byId, i)[i]
    ensures layer.id == layers[i].id && layer.ref == layers[i].ref
    ensures layer.minZoom == layers[i].minZoom && layer.maxZoom == layers[i].maxZoom
  {
    layer := layers[i];
    if layer.ref != "" && layer.ref in byId {
      var ref := layers[byId[layer.ref]];
      if layer.kind == "" {
        layer := layer.(kind := ref.kind);
      }
      if layer.sourceLayer == "" {
        layer := layer.(sourceLayer := ref.sourceLayer);
      }
      if layer.filter.None? {
        layer := layer.(filter := ref.filter);
      }
      if layer.paint.None? {
        layer := layer.(paint := ref.paint);
      }
    }
  }

  /** `newStyler` from the decoded layer list; `None` when compiling some filter panics. */
  method NewStyler(defs: seq<LayerDef>) returns (r: Option<Styler>)
    ensures r.Some? <==> AllCompile(Resolved(defs))
    ensures r.Some? ==> r.value == Styler(Group(CompileLayers(Resolved(defs))))
  {
    var byId := IndexById(defs);
    var layers := defs;
    var byLayer: map<string, seq<StyleLayer>> := map[];
    ghost var done: seq<StyleLayer> := [];
    BuiltNone(defs);
    var i := 0;
    while i < |layers|
      invariant |layers| == |defs| && Built(defs, i, layers, byLayer, done)
    {
      var ok;
      ok, layers, byLayer, done := StyleNext(defs, byId, layers, byLayer, i, done);
      if !ok {
        return None;
      }
      i := i + 1;
    }
    assert i == |defs|;
    BuiltAll(defs, layers, byLayer, done);
    return Some(Styler(byLayer));
  }

  /** The state of `newStyler` after `i` passes of its second loop: the first `i` layers resolved in
      place, their filters compiled and the compiled layers registered by source layer in order. */
  ghost predicate Built(defs: seq<LayerDef>, i: nat, layers: seq<LayerDef>, byLayer: map<string, seq<StyleLayer>>,
                        done: seq<StyleLayer>) {
    i <= |defs| && layers == ResolvedUpTo(defs, i) && AllCompile(Resolved(defs)[..i]) &&
    done == CompileLayers(Resolved(defs)[..i]) && byLayer == Group(done)
  }

  lemma BuiltNone(defs: seq<LayerDef>)
    ensures Built(defs, 0, defs, map[], [])
  {
    assert Resolved(defs)[..0] == [];
  }

  lemma BuiltAll(defs: seq<LayerDef>, layers: seq<LayerDef>, byLayer: map<string, seq<StyleLayer>>, done: seq<StyleLayer>)
    requires Built(defs, |defs|, layers, byLayer, done)
    ensures AllCompile(Resolved(defs)) && byLayer == Group(CompileLayers(Resolved(defs)))
  {
    assert Resolved(defs)[..|defs|] == Resolved(defs);
  }

  /** One pass of `newStyler`'s second loop: resolve layer `i` in place, compile its filter and
      register it under its source layer; `false` when the filter does not compile. */
  method StyleNext(defs: seq<LayerDef>, byId: map<string, nat>, layers: seq<LayerDef>,
                   byLayer: map<string, seq<StyleLayer>>, i: nat, ghost done: seq<StyleLayer>)
    returns (ok: bool, layers': seq<LayerDef>, byLayer': map<string, seq<StyleLayer>>, ghost done': seq<StyleLayer>)
    requires i < |defs| && byId == IdIndex(defs) && Built(defs, i, layers, byLayer, done)
    ensures !ok ==> !AllCompile(Resolved(defs))
    ensures ok ==> |layers'| == |defs| && Built(defs, i + 1, layers', byLayer', done')
  {
    var layer := ResolveLayer(layers, byId, i);
    layers' := ResolveStep(layers, byId, i);
    LoopStep(defs, i);
    var compiled := Compile(FilterOf(layer));
    if compiled.None? {
      return false, layers', byLayer, done;
    }
    var styled := StyleLayer(layer, compiled.value);
    var appended := (if layer.sourceLayer in byLayer then byLayer[layer.sourceLayer] else []) + [styled];
    byLayer' := byLayer[layer.sourceLayer := appended];
    GroupSnoc(done, styled);
    done' := done + [styled];
    ok := true;
  }

  /** What one iteration of the resolution loop adds to the resolved, compiled prefix. */
  lemma LoopStep(defs: seq<LayerDef>, i: nat)
    requires i < |defs| && AllCompile(Resolved(defs)[..i])
    ensures ResolvedUpTo(defs, i + 1)[i] == Resolved(defs)[i]
    ensures !Compiles(FilterOf(Resolved(defs)[i])) ==> !AllCompile(Resolved(defs))
    ensures Compiles(FilterOf(Resolved(defs)[i])) ==>
      AllCompile(Resolved(defs)[..i + 1]) &&
      CompileLayers(Resolved(defs)[..i + 1]) ==
        CompileLayers(Resolved(defs)[..i]) + [StyleLayer(Resolved(defs)[i], Compile(FilterOf(Resolved(defs)[i])).value)]
  {
    var resolved := Resolved(defs);
    ResolvedPrefixStable(defs, i + 1);
    assert resolved[..i + 1] == resolved[..i] + [resolved[i]];
    if Compiles(FilterOf(resolved[i])) {
      CompileSnoc(resolved[..i], resolved[i]);
    }
  }

  lemma GroupSnoc(ls: seq<StyleLayer>, l: StyleLayer)
    ensures var g := Group(ls);
      Group(ls + [l]) == g[l.def.sourceLayer := (if l.def.sourceLayer in g then g[l.def.sourceLayer] else []) + [l]]
  {
    assert (ls + [l])[..|ls|] == ls;
  }

  lemma CompileSnoc(layers: seq<LayerDef>, layer: LayerDef)
    requires AllCompile(layers) && Compiles(FilterOf(layer))
    ensures AllCompile(layers + [layer])
    ensures CompileLayers(layers + [layer]) == CompileLayers(layers) + [StyleLayer(layer, Compile(FilterOf(layer)).value)]
  {
    assert (layers + [layer])[..|layers|] == layers;
  }

  /** After `n` iterations the first `n` layers are final and the rest are untouched. */
  lemma {:induction false} ResolvedPrefixStable(defs: seq<LayerDef>, n: nat)
    requires n <= |defs|
    ensures forall k | 0 <= k < n :: ResolvedUpTo(defs, n)[k] == Resolved(defs)[k]
    ensures forall k | n <= k < |defs| :: ResolvedUpTo(defs, n)[k] == defs[k]
  {
    ResolvedTail(defs, n);
    ResolvedLater(defs, n, |defs|);
  }

  lemma {:induction false} ResolvedTail(defs: seq<LayerDef>, n: nat)
    requires n <= |defs|
    ensures forall k | n <= k < |defs| :: ResolvedUpTo(defs, n)[k] == defs[k]
  {
    if n > 0 {
      ResolvedTail(defs, n - 1);
    }
  }

  lemma {:induction false} ResolvedLater(defs: seq<LayerDef>, n: nat, m: nat)
    requires n <= m <= |defs|
    ensures forall k | 0 <= k < n :: ResolvedUpTo(defs, m)[k] == ResolvedUpTo(defs, n)[k]
  {
    if m > n {
      ResolvedLater(defs, n, m - 1);
    }
  }

  /** Layer `i` after resolution, in terms of the decoded list: a reference to an
      earlier layer reads that layer resolved, any other reference reads it as decoded. */
  lemma {:induction false} ResolvedPointwise(defs: seq<LayerDef>, i: nat)
    requires i < |defs|
    ensures var byId := IdIndex(defs);
      var layer := defs[i];
      Resolved(defs)[i] ==
        if layer.ref != "" && layer.ref in byId then
          Inherit(layer, if byId[layer.ref] < i then Resolved(defs)[byId[layer.ref]] else defs[byId[layer.ref]])
        else layer
  {
    ResolvedPrefixStable(defs, i);
    ResolvedPrefixStable(defs, i + 1);
  }

  /** Resolution never touches a layer's id, reference or zoom range. */
  lemma ResolvedKeeps(defs: seq<LayerDef>, i: nat)
    requires i < |defs|
    ensures Resolved(defs)[i].id == defs[i].id && Resolved(defs)[i].ref == defs[i].ref
    ensures Resolved(defs)[i].minZoom == defs[i].minZoom && Resolved(defs)[i].maxZoom == defs[i].maxZoom
  {
    ResolvedPointwise(defs, i);
  }

  /** A layer that sets every inheritable field, or whose reference is unknown, stays as decoded. */
  lemma ResolvedUnchanged(defs: seq<LayerDef>, i: nat)
    requires i < |defs|
    requires defs[i].ref == "" || defs[i].ref !in IdIndex(defs) ||
      (defs[i].kind != "" && defs[i].sourceLayer != "" && defs[i].filter.Some? && defs[i].paint.Some?)
    ensures Resolved(defs)[i] == defs[i]
  {
    ResolvedPointwise(defs, i);
  }

  /** A reference names the last layer carrying that id. */
  lemma RefIsLastWithId(defs: seq<LayerDef>, id: string)
    requires id in IdIndex(defs)
    ensures var k := IdIndex(defs)[id];
      k < |defs| && defs[k].id == id && forall j | k < j < |defs| :: defs[j].id != id
  {
  }

  function Count(ls: seq<StyleLayer>, name: string): nat {
    |Under(ls, name)|
  }

  lemma {:induction false} UnderSnoc(ls: seq<StyleLayer>, l: StyleLayer, name: string)
    ensures Under(ls + [l], name) == Under(ls, name) + (if l.def.sourceLayer == name then [l] else [])
  {
    var tail := if l.def.sourceLayer == name then [l] else [];
    if ls == [] {
      assert [l][1..] == [];
      assert ls + [l] == [l];
    } else {
      var all := ls + [l];
      var head := if ls[0].def.sourceLayer == name then [ls[0]] else [];
      assert all[0] == ls[0];
      assert all[1..] == ls[1..] + [l];
      UnderSnoc(ls[1..], l, name);
      Assoc(head, Under(ls[1..], name), tail);
    }
  }

  /** Every layer is registered under its own source layer, in document order, and nowhere else. */
  lemma {:induction false} GroupIsUnder(ls: seq<StyleLayer>, name: string)
    ensures name in Group(ls) <==> exists i | 0 <= i < |ls| :: ls[i].def.sourceLayer == name
    ensures name in Group(ls) ==> Group(ls)[name] == Under(ls, name)
    ensures name !in Group(ls) ==> Under(ls, name) == []
  {
    if ls != [] {
      var init := ls[..|ls| - 1];
      var l := ls[|ls| - 1];
      assert ls == init + [l];
      GroupIsUnder(init, name);
      UnderSnoc(init, l, name);
      if l.def.sourceLayer != name && name in Group(ls) {
        var i :| 0 <= i < |init| && init[i].def.sourceLayer == name;
        assert ls[i] == init[i];
      }
      if name !in Group(ls) {
        assert l.def.sourceLayer != name;
        forall i | 0 <= i < |ls|
          ensures ls[i].def.sourceLayer != name
        {
          if i < |init| {
            assert ls[i] == init[i];
          }
        }
      }
    }
  }

  /** The scan of `GetStyleFor`: the first layer in the list whose filter accepts the properties. */
  function FirstMatch(styles: seq<StyleLayer>, props: Props): (r: Option<StyleLayer>)
    ensures r.None? <==> forall i | 0 <= i < |styles| :: !Eval(styles[i].appliesTo, props)
    ensures r.Some? ==> exists i | 0 <= i < |styles| ::
      styles[i] == r.value && Eval(styles[i].appliesTo, props) &&
      forall j | 0 <= j < i :: !Eval(styles[j].appliesTo, props)
  {
    if styles == [] then None
    else if Eval(styles[0].appliesTo, props) then Some(styles[0])
    else
      var r := FirstMatch(styles[1..], props);
      assert forall i | 1 <= i < |styles| :: styles[i] == styles[1..][i - 1];
      r
  }

  function StyleFor(s: Styler, layerName: string, props: Props): Option<StyleLayer> {
    if layerName in s.styleByLayer then FirstMatch(s.styleByLayer[layerName], props) else None
  }

  /** `GetStyleFor`: an unregistered source layer has no style; otherwise the first accepting layer wins. */
  method GetStyleFor(s: Styler, layerName: string, props: Props) returns (r: Option<StyleLayer>)
    ensures r == StyleFor(s, layerName, props)
    ensures layerName !in s.styleByLayer ==> r.None?
    ensures r.Some? ==> layerName in s.styleByLayer && exists i | 0 <= i < |s.styleByLayer[layerName]| ::
      s.styleByLayer[layerName][i] == r.value && Eval(r.value.appliesTo, props) &&
      forall j | 0 <= j < i :: !Eval(s.styleByLayer[layerName][j].appliesTo, props)
  {
    if layerName !in s.styleByLayer {
      return None;
    }
    var styles := s.styleByLayer[layerName];
    var i := 0;
    while i < |styles|
      invariant 0 <= i <= |styles|
      invariant FirstMatch(styles, props) == FirstMatch(styles[i..], props)
    {
      assert styles[i..][1..] == styles[i + 1..];
      if Eval(styles[i].appliesTo, props) {
        return Some(styles[i]);
      }
      i := i + 1;
    }
    return None;
  }

  /** Layer `l` is registered under source layer `name` and its filter accepts `props`. */
  predicate Picks(l: StyleLayer, name: string, props: Props) {
    l.def.sourceLayer == name && Eval(l.appliesTo, props)
  }

  /** The first layer of the list with source layer `name` that accepts `props`. */
  function FirstFor(ls: seq<StyleLayer>, name: string, props: Props): Option<StyleLayer> {
    if ls == [] then None
    else if Picks(ls[0], name, props) then Some(ls[0])
    else FirstFor(ls[1..], name, props)
  }

  lemma {:induction false} FirstMatchUnder(ls: seq<StyleLayer>, name: string, props: Props)
    ensures FirstMatch(Under(ls, name), props) == FirstFor(ls, name, props)
  {
    if ls != [] {
      FirstMatchUnder(ls[1..], name, props);
      if ls[0].def.sourceLayer == name {
        assert Under(ls, name) == [ls[0]] + Under(ls[1..], name);
        assert Under(ls, name)[1..] == Under(ls[1..], name);
      } else {
        assert Under(ls, name) == [] + Under(ls[1..], name) == Under(ls[1..], name);
      }
    }
  }

  lemma {:induction false} FirstForIndex(ls: seq<StyleLayer>, name: string, props: Props)
    ensures FirstFor(ls, name, props).None? <==> forall i | 0 <= i < |ls| :: !Picks(ls[i], name, props)
    ensures FirstFor(ls, name, props).Some? ==> exists i | 0 <= i < |ls| ::
      ls[i] == FirstFor(ls, name, props).value && Picks(ls[i], name, props) &&
      forall j | 0 <= j < i :: !Picks(ls[j], name, props)
  {
    if ls != [] {
      FirstForIndex(ls[1..], name, props);
      assert forall i | 1 <= i < |ls| :: ls[i] == ls[1..][i - 1];
      if !Picks(ls[0], name, props) && FirstFor(ls, name, props).Some? {
        var i :| 0 <= i < |ls[1..]| && ls[1..][i] == FirstFor(ls, name, props).value &&
          Picks(ls[1..][i], name, props) && forall j | 0 <= j < i :: !Picks(ls[1..][j], name, props);
        assert ls[i + 1] == ls[1..][i];
      }
    }
  }

  /** The style a styler built from `defs` picks for a feature of source layer `name`:
      the first layer in document order whose resolved source layer is `name` and
      whose compiled filter accepts the feature's properties. */
  lemma StyleForDocument(defs: seq<LayerDef>, name: string, props: Props)
    requires AllCompile(Resolved(defs))
    ensures var rs := Resolved(defs);
      var r := StyleFor(Styler(Group(CompileLayers(rs))), name, props);
      (r.None? <==> forall i | 0 <= i < |rs| :: !(rs[i].sourceLayer == name && Accepts(FilterOf(rs[i]), props))) &&
      (r.Some? ==> exists i | 0 <= i < |rs| ::
        r.value == StyleLayer(rs[i], Compile(FilterOf(rs[i])).value) &&
        rs[i].sourceLayer == name && Accepts(FilterOf(rs[i]), props) &&
        forall j | 0 <= j < i :: !(rs[j].sourceLayer == name && Accepts(FilterOf(rs[j]), props)))
  {
    var rs := Resolved(defs);
    var ls := CompileLayers(rs);
    GroupIsUnder(ls, name);
    FirstMatchUnder(ls, name, props);
    FirstForLayers(rs, name, props);
  }

  /** `FirstFor` over compiled layers, read back on the layer definitions they were compiled from. */
  lemma FirstForLayers(rs: seq<LayerDef>, name: string, props: Props)
    requires AllCompile(rs)
    ensures var r := FirstFor(CompileLayers(rs), name, props);
      (r.None? <==> forall i | 0 <= i < |rs| :: !(rs[i].sourceLayer == name && Accepts(FilterOf(rs[i]), props))) &&
      (r.Some? ==> exists i | 0 <= i < |rs| ::
        r.value == StyleLayer(rs[i], Compile(FilterOf(rs[i])).value) &&
        rs[i].sourceLayer == name && Accepts(FilterOf(rs[i]), props) &&
        forall j | 0 <= j < i :: !(rs[j].sourceLayer == name && Accepts(FilterOf(rs[j]), props)))
  {
    var ls := CompileLayers(rs);
    FirstForIndex(ls, name, props);
    assert forall i | 0 <= i < |rs| ::
      Picks(ls[i], name, props) <==> (rs[i].sourceLayer == name && Accepts(FilterOf(rs[i]), props));
    if FirstFor(ls, name, props).Some? {
      var i :| 0 <= i < |ls| && ls[i] == FirstFor(ls, name, props).value && Picks(ls[i], name, props) &&
        forall j | 0 <= j < i :: !Picks(ls[j], name, props);
      assert ls[i] == StyleLayer(rs[i], Compile(FilterOf(rs[i])).value);
    }
  }

  /** `GetPaintProperty`: the paint entry when it is a string, the fallback otherwise. */
  function GetPaintProperty(layer: StyleLayer, key: string, fallback: string): (r: string)
    ensures PaintString(layer, key) ==> r == layer.def.paint.value[key].s
    ensures r != fallback ==> PaintString(layer, key)
  {
    match layer.def.paint
    case None => fallback
    case Some(paint) => if key in paint && paint[key].JStr? then paint[key].s else fallback
  }

  /** The colour string a feature is drawn in: `line-color`, else `fill-color`, else white. */
  function ColorString(layer: StyleLayer): string {
    GetPaintProperty(layer, "line-color", GetPaintProperty(layer, "fill-color", "#ffffff"))
  }

  predicate PaintString(layer: StyleLayer, key: string) {
    layer.def.paint.Some? && key in layer.def.paint.value && layer.def.paint.value[key].JStr?
  }

  /** `line-color` takes precedence over `fill-color`; a layer with neither as a string is white. */
  lemma ColorPrecedence(layer: StyleLayer)
    ensures PaintString(layer, "line-color") ==> ColorString(layer) == layer.def.paint.value["line-color"].s
    ensures !PaintString(layer, "line-color") && PaintString(layer, "fill-color") ==>
      ColorString(layer) == layer.def.paint.value["fill-color"].s
    ensures !PaintString(layer, "line-color") && !PaintString(layer, "fill-color") ==> ColorString(layer) == "#ffffff"
  {
  }
}
