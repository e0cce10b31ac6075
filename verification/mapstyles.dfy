/** The map style of the frontend (frontend/src/mapstyles/index.js): `addRoadsStyle`
    registers the OpenBikeSensor road source in a Mapbox GL style and splices the
    `obs` line layer into its layer list, just before the basemap's `road_oneway`
    layer; `obsRoads` does this to a fresh copy of the `positron` basemap. */
module MapStyles {
  import opened Wrappers

  /** A JSON value, as the style holds them. */
  datatype Json =
    | JNull
    | JBool(b: bool)
    | JNum(n: real)
    | JStr(s: string)
    | JArr(items: seq<Json>)
    | JObj(fields: map<string, Json>)

  /** `l.id === id`: the layer is an object whose `id` field is that string. */
  predicate HasId(l: Json, id: string) {
    l.JObj? && "id" in l.fields && l.fields["id"] == JStr(id)
  }

  /** The id of the layer the roads go in front of. */
  const OneWayId: string := "road_oneway"

  function Get(property: string): Json {
    JArr([JStr("get"), JStr(property)])
  }

  /** `["!", ["to-boolean", ["get", "distance_overtaker_mean"]]]`: the road has no
      measured overtaking distance. */
  function Unmeasured(): Json {
    JArr([JStr("!"), JArr([JStr("to-boolean"), Get("distance_overtaker_mean")])])
  }

  function Case(cond: Json, yes: Json, no: Json): Json {
    JArr([JStr("case"), cond, yes, no])
  }

  function Zoom(): Json {
    JArr([JStr("zoom")])
  }

  function Exponential(base: real): Json {
    JArr([JStr("exponential"), JNum(base)])
  }

  function Linear(): Json {
    JArr([JStr("linear")])
  }

  /** The paint properties of the `obs` layer: width, colour, opacity and offset,
      each a Mapbox GL expression over the zoom level and the road's measured
      overtaking distance. */
  function ObsPaint(): Json {
    JObj(map[
      "line-width" := JArr([JStr("interpolate"), Exponential(1.5), Zoom(),
        JNum(12.0), JNum(1.0),
        JNum(17.0), Case(Unmeasured(), JNum(2.0), JNum(6.0))]),
      "line-color" := Case(Unmeasured(), JStr("#ABC"),
        JArr([JStr("interpolate-hcl"), Linear(), Get("distance_overtaker_mean"),
          JNum(1.0), JStr("rgba(255, 0, 0, 1)"),
          JNum(1.3), JStr("rgba(255, 200, 0, 1)"),
          JNum(1.5), JStr("rgba(67, 200, 0, 1)"),
          JNum(1.7), JStr("rgba(67, 150, 0, 1)")])),
      "line-opacity" := JArr([JStr("interpolate"), Linear(), Zoom(),
        JNum(12.0), JNum(0.0),
        JNum(13.0), Case(Unmeasured(), JNum(0.0), JNum(1.0)),
        JNum(14.0), Case(Unmeasured(), JNum(0.0), JNum(1.0)),
        JNum(15.0), JNum(1.0)]),
      "line-offset" := JArr([JStr("interpolate"), Exponential(1.5), Zoom(),
        JNum(12.0), Get("offset_direction"),
        JNum(19.0), JArr([JStr("*"), Get("offset_direction"), JNum(8.0)])])
    ])
  }

  /** The layer `addRoadsStyle` inserts. */
  function ObsLayer(): Json {
    JObj(map[
      "id" := JStr("obs"),
      "type" := JStr("line"),
      "source" := JStr("obs"),
      "source-layer" := JStr("obs_roads"),
      "layout" := JObj(map["line-cap" := JStr("round"), "line-join" := JStr("round")]),
      "paint" := ObsPaint(),
      "minzoom" := JNum(12.0)
    ])
  }

  /** The inserted layer draws the `obs_roads` layer of the `obs` source as lines
      with round caps and joins, from zoom 12 on, and is not the one-way layer. */
  lemma ObsLayerFields()
    ensures var l := ObsLayer();
      && HasId(l, "obs") && !HasId(l, OneWayId)
      && l.fields["type"] == JStr("line")
      && l.fields["source"] == JStr("obs")
      && l.fields["source-layer"] == JStr("obs_roads")
      && l.fields["minzoom"] == JNum(12.0)
      && l.fields["layout"] == JObj(map["line-cap" := JStr("round"), "line-join" := JStr("round")])
  {
    assert ObsLayer().fields["id"] == JStr("obs");
    assert "obs" != OneWayId by {
      assert "obs"[1] != OneWayId[1];
    }
  }

  /** `layers.findIndex(l => l.id === id)`: the index of the first layer with that
      id, or -1. */
  function FindIndex(layers: seq<Json>, id: string): (k: int)
    ensures -1 <= k < |layers|
    decreases |layers|
  {
    if layers == [] then -1
    else if HasId(layers[0], id) then 0
    else
      var k := FindIndex(layers[1..], id);
      if k == -1 then -1 else k + 1
  }

  /** `FindIndex` gives -1 exactly when no layer has the id, and otherwise the
      position of a layer with the id that no earlier layer has. */
  lemma {:induction false} FindIndexSpec(layers: seq<Json>, id: string)
    ensures var k := FindIndex(layers, id);
      && (k == -1 <==> forall j :: 0 <= j < |layers| ==> !HasId(layers[j], id))
      && (k != -1 ==> HasId(layers[k], id) && forall j :: 0 <= j < k ==> !HasId(layers[j], id))
    decreases |layers|
  {
    if layers != [] && !HasId(layers[0], id) {
      FindIndexSpec(layers[1..], id);
      assert forall j :: 0 < j < |layers| ==> layers[j] == layers[1..][j - 1];
    }
  }

  /** Where the roads layer goes: in front of the first `road_oneway` layer, or at
      the end when there is none. */
  function InsertionIndex(layers: seq<Json>): (i: nat)
    ensures i <= |layers|
  {
    var k := FindIndex(layers, OneWayId);
    if k < 0 then |layers| else k
  }

  /** `layers.splice(i, 0, x)`. */
  function Insert(layers: seq<Json>, i: nat, x: Json): seq<Json>
    requires i <= |layers|
  {
    layers[..i] + [x] + layers[i..]
  }

  /** `layers.splice(i, 1)`, the inverse of inserting at `i`. */
  function RemoveAt(layers: seq<Json>, i: nat): seq<Json>
    requires i < |layers|
  {
    layers[..i] + layers[i + 1..]
  }

  /** The insertion index is within the list, names the first `road_oneway` layer
      when there is one and is the end of the list when there is none. */
  lemma InsertionIndexSpec(layers: seq<Json>)
    ensures InsertionIndex(layers) == |layers| <==> forall j :: 0 <= j < |layers| ==> !HasId(layers[j], OneWayId)
    ensures InsertionIndex(layers) < |layers| ==> HasId(layers[InsertionIndex(layers)], OneWayId)
    ensures forall j :: 0 <= j < InsertionIndex(layers) ==> !HasId(layers[j], OneWayId)
  {
    FindIndexSpec(layers, OneWayId);
  }

  /** Splicing one layer in grows the list by one, keeps the layers before the
      index where they were, puts the new layer at the index and moves every later
      layer up by one in the same order; taking it out again gives back the list. */
  lemma InsertSpec(layers: seq<Json>, i: nat, x: Json)
    requires i <= |layers|
    ensures var r := Insert(layers, i, x);
      && |r| == |layers| + 1
      && (forall j :: 0 <= j < i ==> r[j] == layers[j])
      && r[i] == x
      && (forall j :: i <= j < |layers| ==> r[j + 1] == layers[j])
      && RemoveAt(r, i) == layers
  {
    var r := Insert(layers, i, x);
    assert r[..i] == layers[..i];
    assert r[i + 1..] == layers[i..];
  }

  /** After the insertion a layer that is not itself a `road_oneway` layer (such as
      the roads layer, `ObsLayerFields`) sits directly in front of the `road_oneway`
      layer, which is still the first one with that id. */
  lemma InsertedBeforeOneWay(layers: seq<Json>, x: Json)
    requires InsertionIndex(layers) < |layers| && !HasId(x, OneWayId)
    ensures var i := InsertionIndex(layers);
      var r := Insert(layers, i, x);
      && r[i] == x && HasId(r[i + 1], OneWayId)
      && FindIndex(r, OneWayId) == i + 1
  {
    var i := InsertionIndex(layers);
    var r := Insert(layers, i, x);
    InsertionIndexSpec(layers);
    InsertSpec(layers, i, x);
    FindIndexSpec(r, OneWayId);
    assert forall j :: 0 <= j <= i ==> !HasId(r[j], OneWayId);
  }

  /** A Mapbox GL style: its sources by name and its layers in drawing order. */
  class Style {
    var sources: map<string, Json>
    var layers: seq<Json>

    constructor (sources: map<string, Json>, layers: seq<Json>)
      ensures this.sources == sources && this.layers == layers
    {
      this.sources := sources;
      this.layers := layers;
    }

    /** `_.cloneDeep(style)`: a new style with the same contents. */
    method Clone() returns (c: Style)
      ensures fresh(c) && c.sources == sources && c.layers == layers
    {
      c := new Style(sources, layers);
    }

    /** `addRoadsStyle(style, mapSource)`: sets the `obs` source and splices the
        roads layer in front of the first `road_oneway` layer, or at the end; the
        style itself is returned. */
    method AddRoadsStyle(mapSource: Json) returns (r: Style)
      modifies this
      ensures r == this
      ensures sources == old(sources)["obs" := mapSource]
      ensures layers == Insert(old(layers), InsertionIndex(old(layers)), ObsLayer())
    {
      sources := sources["obs" := mapSource];
      var idx := FindIndex(layers, OneWayId);
      if idx == -1 {
        idx := |layers|;
      }
      FindIndexSpec(layers, OneWayId);
      layers := layers[..idx] + [ObsLayer()] + layers[idx..];
      return this;
    }
  }

  /** `obsRoads(sourceUrl)`: the roads layer added to a fresh copy of the
      `positron` style, which itself is left as it was. */
  method ObsRoads(positron: Style, sourceUrl: Json) returns (r: Style)
    ensures fresh(r)
    ensures r.sources == positron.sources["obs" := sourceUrl]
    ensures r.layers == Insert(positron.layers, InsertionIndex(positron.layers), ObsLayer())
    ensures positron.sources == old(positron.sources) && positron.layers == old(positron.layers)
  {
    var copy := positron.Clone();
    r := copy.AddRoadsStyle(sourceUrl);
  }
}
