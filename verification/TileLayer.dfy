/** Vector tile layers (internal/minigen/mvt.go): features with indexes into shared key and value tables,
    and their reading, geometry and all, by section 4 of the Mapbox Vector Tile Specification 2.1. */
module TileLayer {
  import opened Bits
  import opened Options
  import opened Varint
  import opened Protobuf
  import Geometry
  import Lexicographic
  import opened TileGeometry

  const TILE_EXTENT := 4096

  /** Only text is written; other values are passed over. */
  datatype Value = Text(text: Bytes) | Other

  datatype Feature = Feature(shape: Shape, properties: map<Bytes, Value>)

  // ----- Reading by the specification -----

  datatype Drawn = Drawn(kind: nat, paths: seq<Path>, properties: map<Bytes, Bytes>)

  datatype Layer = Layer(name: Bytes, version: nat, extent: nat, features: seq<Drawn>)

  function Messages(fs: seq<Field>, num: nat): seq<Bytes> {
    if fs == [] then []
    else (if fs[0].Message? && fs[0].num == num then [fs[0].value] else []) + Messages(fs[1..], num)
  }

  function Numbers(fs: seq<Field>, num: nat): seq<nat> {
    if fs == [] then []
    else (if fs[0].Number? && fs[0].num == num then [fs[0].v] else []) + Numbers(fs[1..], num)
  }

  /** Pairs of indexes, a key and a value each. */
  function DecodeTags(tags: seq<nat>, keys: seq<Bytes>, values: seq<Bytes>): Option<map<Bytes, Bytes>> {
    if tags == [] then Some(map[])
    else
      var n := |tags|;
      if n < 2 || tags[n - 2] >= |keys| || tags[n - 1] >= |values| then None
      else
        match DecodeTags(tags[..n - 2], keys, values)
        case None => None
        case Some(m) => Some(m[keys[tags[n - 2]] := values[tags[n - 1]]])
  }

  /** The indexes a feature has for its tags. */
  function TagCodes(fs: seq<Field>): Option<seq<nat>> {
    var tags := Messages(fs, 2);
    if |tags| > 1 then None else Unpacked(if tags == [] then [] else tags[0])
  }

  function DecodeFeature(b: Bytes, keys: seq<Bytes>, values: seq<Bytes>): Option<Drawn> {
    var (fs, ok) := Walk(b);
    var kinds, geometries := Numbers(fs, 3), Messages(fs, 4);
    if !ok || |kinds| != 1 || |geometries| != 1 then None
    else
      match TagCodes(fs)
      case None => None
      case Some(codes) =>
        match (DecodeTags(codes, keys, values), DecodeGeometry(geometries[0]))
        case (Some(m), Some(paths)) => Some(Drawn(kinds[0], paths, m))
        case _ => None
  }

  function DecodeFeatures(bs: seq<Bytes>, keys: seq<Bytes>, values: seq<Bytes>): Option<seq<Drawn>> {
    if bs == [] then Some([])
    else
      var n := |bs| - 1;
      match (DecodeFeatures(bs[..n], keys, values), DecodeFeature(bs[n], keys, values))
      case (Some(ds), Some(d)) => Some(ds + [d])
      case _ => None
  }

  function DecodeValue(b: Bytes): Option<Bytes> {
    var (fs, ok) := Walk(b);
    var texts := Messages(fs, 1);
    if !ok || |texts| != 1 then None else Some(texts[0])
  }

  function DecodeValues(bs: seq<Bytes>): Option<seq<Bytes>> {
    if bs == [] then Some([])
    else
      match (DecodeValue(bs[0]), DecodeValues(bs[1..]))
      case (Some(v), Some(vs)) => Some([v] + vs)
      case _ => None
  }

  function DecodeLayer(b: Bytes): Option<Layer> {
    var (fs, ok) := Walk(b);
    var names, extents, versions := Messages(fs, 1), Numbers(fs, 5), Numbers(fs, 15);
    if !ok || |names| != 1 || |extents| != 1 || |versions| != 1 then None
    else
      match DecodeValues(Messages(fs, 4))
      case None => None
      case Some(values) =>
        match DecodeFeatures(Messages(fs, 2), Messages(fs, 3), values)
        case None => None
        case Some(ds) => Some(Layer(names[0], versions[0], extents[0], ds))
  }

  // ----- What a reader should see -----

  function Texts(properties: map<Bytes, Value>): map<Bytes, Bytes> {
    map k | k in properties && properties[k].Text? :: properties[k].text
  }

  /** The features of which something is left to draw. */
  function Visible(fs: seq<Feature>, t: Tools): (ds: seq<Drawn>)
    ensures forall i :: 0 <= i < |ds| ==> ds[i].kind == LINE || ds[i].kind == POLYGON
  {
    if fs == [] then []
    else
      var n := |fs| - 1;
      var s := fs[n].shape;
      Visible(fs[..n], t)
      + if Paths(s, t) == [] then [] else [Drawn(s.kind, Paths(s, t), Texts(fs[n].properties))]
  }

  /** One feature as it should be seen: its kind, what it pictures and its text properties. */
  ghost predicate ShowsFeature(f: Feature, t: Tools, d: Drawn) {
    && d.kind == f.shape.kind && Pictures(f.shape, t, d.paths) && d.paths != []
    && forall k, v :: (k in d.properties && d.properties[k] == v) <==>
         (k in f.properties && f.properties[k] == Text(v))
  }

  /** The increasing indices ix name exactly the features of which something is left, and ds shows them in
      order. */
  ghost predicate ShowsFeatures(fs: seq<Feature>, t: Tools, ix: seq<nat>, ds: seq<Drawn>) {
    && |ds| == |ix|
    && (forall j :: 0 <= j < |ix| ==> ix[j] < |fs| && ShowsFeature(fs[ix[j]], t, ds[j]))
    && (forall j, k :: 0 <= j < k < |ix| ==> ix[j] < ix[k])
    && (forall i :: 0 <= i < |fs| && i !in ix ==> Pictures(fs[i].shape, t, []))
  }

  lemma {:induction false} ShowsOneFeature(fs: seq<Feature>, t: Tools, ix: seq<nat>, ds: seq<Drawn>, d: Drawn)
    requires fs != [] && ShowsFeatures(fs[..|fs| - 1], t, ix, ds) && ShowsFeature(fs[|fs| - 1], t, d)
    ensures ShowsFeatures(fs, t, ix + [|fs| - 1], ds + [d])
  {
    hide ShowsFeature, Pictures;
    var n := |fs| - 1;
    var jx, es := ix + [n], ds + [d];
    forall j | 0 <= j < |jx| ensures ShowsFeature(fs[jx[j]], t, es[j]) {
      if j < |ix| {
        assert fs[jx[j]] == fs[..n][ix[j]];
      }
    }
    StillIn(ix, n);
    forall i | 0 <= i < |fs| && i !in jx ensures Pictures(fs[i].shape, t, []) {
      assert fs[i] == fs[..n][i];
    }
  }

  lemma {:induction false} ShowsNoFeature(fs: seq<Feature>, t: Tools, ix: seq<nat>, ds: seq<Drawn>)
    requires fs != [] && ShowsFeatures(fs[..|fs| - 1], t, ix, ds) && Pictures(fs[|fs| - 1].shape, t, [])
    ensures ShowsFeatures(fs, t, ix, ds)
  {
    hide ShowsFeature, Pictures;
    var n := |fs| - 1;
    forall j | 0 <= j < |ix| ensures ShowsFeature(fs[ix[j]], t, ds[j]) {
      assert fs[ix[j]] == fs[..n][ix[j]];
    }
    forall i | 0 <= i < |fs| && i !in ix ensures Pictures(fs[i].shape, t, []) {
      if i < n {
        assert fs[i] == fs[..n][i];
      }
    }
  }

  lemma {:induction false} VisibleLast(fs: seq<Feature>, t: Tools)
    ensures Visible([], t) == []
    ensures fs != [] ==>
              var f, ds := fs[|fs| - 1], Visible(fs[..|fs| - 1], t);
              Visible(fs, t) == if Paths(f.shape, t) == [] then ds
                                else ds + [Drawn(f.shape.kind, Paths(f.shape, t), Texts(f.properties))]
  {
    hide Paths, Texts;
    if fs != [] {
      assert Visible(fs[..|fs| - 1], t) + [] == Visible(fs[..|fs| - 1], t);
    }
  }

  lemma {:induction false} DrawnShows(f: Feature, t: Tools)
    requires Paths(f.shape, t) != []
    ensures f.shape.kind >= 0 && ShowsFeature(f, t, Drawn(f.shape.kind, Paths(f.shape, t), Texts(f.properties)))
  {
    hide Paths, Pictures;
    PathsPicture(f.shape, t);
  }

  /** What a reader should see is each feature of which something is left. */
  lemma {:induction false} VisibleShows(fs: seq<Feature>, t: Tools) returns (ix: seq<nat>)
    ensures ShowsFeatures(fs, t, ix, Visible(fs, t))
  {
    hide ShowsFeature, Pictures, Paths, Texts, Visible;
    VisibleLast(fs, t);
    if fs == [] {
      ix := [];
    } else {
      hide ShowsFeatures;
      var f, ds := fs[|fs| - 1], Visible(fs[..|fs| - 1], t);
      ix := VisibleShows(fs[..|fs| - 1], t);
      PathsPicture(f.shape, t);
      if Paths(f.shape, t) == [] {
        ShowsNoFeature(fs, t, ix, ds);
      } else {
        DrawnShows(f, t);
        ShowsOneFeature(fs, t, ix, ds, Drawn(f.shape.kind, Paths(f.shape, t), Texts(f.properties)));
        ix := ix + [|fs| - 1];
      }
    }
  }

  /** The names and the texts the tables have to hold. */
  ghost function Names(ds: seq<Drawn>): set<Bytes> {
    set i, k | 0 <= i < |ds| && k in ds[i].properties :: k
  }

  ghost function Contents(ds: seq<Drawn>): set<Bytes> {
    set i, k | 0 <= i < |ds| && k in ds[i].properties :: ds[i].properties[k]
  }

  // ----- Tables -----

  /** A list without repetitions and the index of each entry, in 32 bits. */
  datatype Table = Table(index: map<Bytes, nat>, list: seq<Bytes>)

  predicate Holds(t: Table, k: Bytes, i: int) {
    0 <= i < |t.list| && t.list[i] == k && k in t.index && t.index[k] == U32(i)
  }

  predicate Distinct(list: seq<Bytes>) {
    forall i, j :: 0 <= i < j < |list| ==> list[i] != list[j]
  }

  /** The table lists the set, and knows where each of its entries is. */
  ghost predicate Records(t: Table, items: set<Bytes>) {
    && Distinct(t.list)
    && (forall k :: k in items <==> k in t.index)
    && (forall k :: k in items <==> k in t.list)
    && (forall k :: k in t.index ==> exists i :: Holds(t, k, i))
  }

  lemma {:induction false} NothingRecorded(t: Table)
    requires t == Table(map[], [])
    ensures Records(t, {})
  {
  }

  lemma {:induction false} RecordsMore(t: Table, items: set<Bytes>, item: Bytes)
    requires Records(t, items) && item !in items
    ensures Records(Table(t.index[item := U32(|t.list|)], t.list + [item]), items + {item})
  {
    var u := Table(t.index[item := U32(|t.list|)], t.list + [item]);
    forall k | k in u.index ensures exists i :: Holds(u, k, i) {
      if k == item {
        assert Holds(u, k, |t.list|);
      } else {
        var i :| Holds(t, k, i);
        assert Holds(u, k, i);
      }
    }
  }

  lemma {:induction false} ListSize(list: seq<Bytes>, items: set<Bytes>)
    requires Distinct(list) && forall k :: k in items <==> k in list
    ensures |list| == |items|
  {
    if list == [] {
      assert items == {};
    } else {
      var n := |list| - 1;
      var less := items - {list[n]};
      forall k ensures k in less <==> k in list[..n] {
        if k in list[..n] {
          var i :| 0 <= i < n && list[..n][i] == k;
          assert list[i] == k;
        }
      }
      ListSize(list[..n], less);
      assert list[n] in list;
    }
  }

  lemma {:induction false} TableSize(t: Table, items: set<Bytes>)
    requires Records(t, items)
    ensures |t.list| == |items|
  {
    ListSize(t.list, items);
  }

  /** The index of an item, which is added if it is new. */
  method Intern(t0: Table, item: Bytes, ghost items: set<Bytes>) returns (index: nat, t: Table)
    requires Records(t0, items)
    ensures Records(t, items + {item}) && t0.list <= t.list
    ensures index < TWO_32 && (|t.list| <= TWO_32 ==> index < |t.list| && t.list[index] == item)
  {
    t := t0;
    if item in t.index {
      index := t.index[item];
      ghost var i :| Holds(t, item, i);
      assert items + {item} == items;
    } else {
      index := U32(|t.list|);
      t := Table(t.index[item := index], t.list + [item]);
      RecordsMore(t0, items, item);
    }
  }

  /** Both tables can be indexed in 32 bits. */
  predicate Fit(keys: Table, values: Table) {
    |keys.list| <= TWO_32 && |values.list| <= TWO_32
  }

  /** Longer tables read the same. */
  lemma {:induction false} TagsStay(tags: seq<nat>, ks: seq<Bytes>, vs: seq<Bytes>, ks': seq<Bytes>, vs': seq<Bytes>)
    requires ks <= ks' && vs <= vs' && DecodeTags(tags, ks, vs).Some?
    ensures DecodeTags(tags, ks', vs') == DecodeTags(tags, ks, vs)
  {
    if tags != [] {
      TagsStay(tags[..|tags| - 2], ks, vs, ks', vs');
    }
  }

  lemma {:induction false} FeaturesStay(bs: seq<Bytes>, ks: seq<Bytes>, vs: seq<Bytes>,
                                        ks': seq<Bytes>, vs': seq<Bytes>)
    requires ks <= ks' && vs <= vs' && DecodeFeatures(bs, ks, vs).Some?
    ensures DecodeFeatures(bs, ks', vs') == DecodeFeatures(bs, ks, vs)
  {
    hide Walk, DecodeTags, TagCodes, DecodeGeometry, Messages, Numbers;
    if bs != [] {
      var n := |bs| - 1;
      FeaturesStay(bs[..n], ks, vs, ks', vs');
      var codes := TagCodes(Walk(bs[n]).0);
      if codes.Some? && DecodeTags(codes.value, ks, vs).Some? {
        TagsStay(codes.value, ks, vs, ks', vs');
      }
    }
  }

  // ----- The tags of a feature -----

  /** The property names in order. */
  method SortedNames(properties: map<Bytes, Value>) returns (names: seq<Bytes>)
    ensures forall k :: k in names <==> k in properties
    ensures Lexicographic.Ordered(Lexicographic.ByteLess, names)
  {
    names := [];
    var left := properties.Keys;
    while left != {}
      invariant forall k :: k in properties <==> k in names || k in left
      decreases |left|
    {
      var k :| k in left;
      names := names + [k];
      left := left - {k};
    }
    var all := names;
    names := Lexicographic.Sort(Lexicographic.ByteLess, all);
    Lexicographic.ByteOrder();
    Lexicographic.SortOrdered(Lexicographic.ByteLess, all);
    forall k ensures k in names <==> k in properties {
      Lexicographic.SortMember(Lexicographic.ByteLess, all, k);
    }
  }

  function TextsAmong(properties: map<Bytes, Value>, names: seq<Bytes>): map<Bytes, Bytes>
    requires forall i :: 0 <= i < |names| ==> names[i] in properties
  {
    if names == [] then map[]
    else
      var n := |names| - 1;
      var m, k := TextsAmong(properties, names[..n]), names[n];
      if properties[k].Text? then m[k := properties[k].text] else m
  }

  lemma {:induction false} TextsAmongAre(properties: map<Bytes, Value>, names: seq<Bytes>, k: Bytes)
    requires forall i :: 0 <= i < |names| ==> names[i] in properties
    ensures var m := TextsAmong(properties, names);
            && (k in m <==> k in names && properties[k].Text?)
            && (k in m ==> m[k] == properties[k].text)
  {
    if names != [] {
      var n := |names| - 1;
      TextsAmongAre(properties, names[..n], k);
      assert names == names[..n] + [names[n]];
    }
  }

  lemma {:induction false} TextsAmongAll(properties: map<Bytes, Value>, names: seq<Bytes>)
    requires forall k :: k in names <==> k in properties
    ensures forall i :: 0 <= i < |names| ==> names[i] in properties
    ensures TextsAmong(properties, names) == Texts(properties)
  {
    forall k ensures k in TextsAmong(properties, names) <==> k in Texts(properties)
             ensures k in TextsAmong(properties, names) ==> TextsAmong(properties, names)[k] == Texts(properties)[k]
    {
      TextsAmongAre(properties, names, k);
    }
  }

  /** The values of one more property. */
  lemma {:induction false} TextsAmongMore(properties: map<Bytes, Value>, names: seq<Bytes>, i: nat)
    requires i < |names| && forall j :: 0 <= j < |names| ==> names[j] in properties
    ensures var m, m' := TextsAmong(properties, names[..i]), TextsAmong(properties, names[..i + 1]);
            match properties[names[i]]
            case Text(v) => m' == m[names[i] := v] && m'.Keys == m.Keys + {names[i]} && m'.Values == m.Values + {v}
            case Other => m' == m
  {
    assert names[..i + 1][..i] == names[..i];
    var k, m := names[i], TextsAmong(properties, names[..i]);
    TextsAmongAre(properties, names[..i], k);
    if properties[k].Text? {
      NewValue(m, k, properties[k].text);
    }
  }

  lemma {:induction false} NewValue(m: map<Bytes, Bytes>, k: Bytes, v: Bytes)
    requires k in m ==> m[k] == v
    ensures m[k := v].Keys == m.Keys + {k} && m[k := v].Values == m.Values + {v}
  {
    var m' := m[k := v];
    forall w ensures w in m'.Values <==> w in m.Values + {v} {
      if w in m.Values {
        var j :| j in m && m[j] == w;
        assert j in m' && m'[j] == w;
      }
      assert k in m' && m'[k] == v;
    }
  }

  /** What codes mean under two tables, if these can be indexed; the codes are 32-bit numbers even if
      they cannot. */
  ghost predicate Means(codes: seq<nat>, keys: Table, values: Table, m: map<Bytes, Bytes>) {
    && Narrow(codes)
    && (Fit(keys, values) ==> DecodeTags(codes, keys.list, values.list) == Some(m))
  }

  ghost predicate Narrow(codes: seq<nat>) {
    forall i :: 0 <= i < |codes| ==> codes[i] < TWO_32
  }

  lemma {:induction false} MeansMore(codes: seq<nat>, keys: Table, values: Table, m: map<Bytes, Bytes>,
                                     keys': Table, values': Table, ki: nat, vi: nat, k: Bytes, v: Bytes)
    requires Means(codes, keys, values, m) && keys.list <= keys'.list && values.list <= values'.list
    requires ki < TWO_32 && (|keys'.list| <= TWO_32 ==> ki < |keys'.list| && keys'.list[ki] == k)
    requires vi < TWO_32 && (|values'.list| <= TWO_32 ==> vi < |values'.list| && values'.list[vi] == v)
    ensures Means(codes + [ki, vi], keys', values', m[k := v])
  {
    if Fit(keys', values') {
      TagsStay(codes, keys.list, values.list, keys'.list, values'.list);
      assert (codes + [ki, vi])[..|codes|] == codes;
    }
  }

  lemma {:induction false} MeansWords(codes: seq<nat>, keys: Table, values: Table, m: map<Bytes, Bytes>)
    requires Means(codes, keys, values, m)
    ensures Words(codes)
  {
  }

  lemma {:induction false} NoTags(keys: Table, values: Table)
    ensures Means([], keys, values, map[]) && EncodedAll([]) == []
  {
  }

  lemma {:induction false} EncodedPair(codes: seq<nat>, a: nat, b: nat)
    ensures EncodedAll(codes + [a, b]) == EncodedAll(codes) + Encoded(a) + Encoded(b)
  {
    hide EncodedAll, Encoded;
    EncodedAllConcat(codes, [a, b]);
    EncodedAllConcat([a], [b]);
    assert [a, b] == [a] + [b];
    EncodedOne(a);
    EncodedOne(b);
  }

  /** One more property: its two indexes. */
  method EncodeTag(property: Bytes, value: Bytes, tags0: Bytes, keys0: Table, values0: Table, ghost codes0: seq<nat>,
                   ghost m: map<Bytes, Bytes>, ghost names: set<Bytes>, ghost texts: set<Bytes>)
    returns (tags: Bytes, keys: Table, values: Table, ghost codes: seq<nat>)
    requires Records(keys0, names) && Records(values0, texts)
    requires tags0 == EncodedAll(codes0) && Means(codes0, keys0, values0, m)
    ensures Records(keys, names + {property}) && Records(values, texts + {value})
    ensures keys0.list <= keys.list && values0.list <= values.list
    ensures tags == EncodedAll(codes) && Means(codes, keys, values, m[property := value])
  {
    hide Encoded, EncodedAll, Records, Means;
    var ki, vi;
    ki, keys := Intern(keys0, property, names);
    vi, values := Intern(values0, value, texts);
    MeansMore(codes0, keys0, values0, m, keys, values, ki, vi, property, value);
    EncodedPair(codes0, ki, vi);
    tags := AppendVarint(tags0, ki);
    tags := AppendVarint(tags, vi);
    codes := codes0 + [ki, vi];
  }

  lemma {:induction false} NoTexts(properties: map<Bytes, Value>, names: seq<Bytes>)
    requires forall i :: 0 <= i < |names| ==> names[i] in properties
    ensures TextsAmong(properties, names[..0]) == map[]
  {
  }

  /** A feature's tags: what they mean, and that the tables gain exactly its names and texts. */
  method EncodeTags(properties: map<Bytes, Value>, keys0: Table, values0: Table,
                    ghost names0: set<Bytes>, ghost texts0: set<Bytes>)
    returns (tags: Bytes, keys: Table, values: Table, ghost codes: seq<nat>)
    requires Records(keys0, names0) && Records(values0, texts0)
    ensures Records(keys, names0 + Texts(properties).Keys) && Records(values, texts0 + Texts(properties).Values)
    ensures keys0.list <= keys.list && values0.list <= values.list
    ensures tags == EncodedAll(codes) && Means(codes, keys, values, Texts(properties))
  {
    hide Encoded, EncodedAll, Records, Means, TextsAmong, Texts;
    var names := SortedNames(properties);
    TextsAmongAll(properties, names);
    tags, keys, values, codes := [], keys0, values0, [];
    NoTags(keys, values);
    ghost var m: map<Bytes, Bytes> := map[];
    assert names0 + m.Keys == names0 && texts0 + m.Values == texts0;
    NoTexts(properties, names);
    for i := 0 to |names|
      invariant keys0.list <= keys.list && values0.list <= values.list
      invariant m == TextsAmong(properties, names[..i])
      invariant Records(keys, names0 + m.Keys) && Records(values, texts0 + m.Values)
      invariant tags == EncodedAll(codes) && Means(codes, keys, values, m)
    {
      var property := names[i];
      TextsAmongMore(properties, names, i);
      if properties[property].Text? {
        var value := properties[property].text;
        tags, keys, values, codes :=
          EncodeTag(property, value, tags, keys, values, codes, m, names0 + m.Keys, texts0 + m.Values);
        assert names0 + m.Keys + {property} == names0 + (m.Keys + {property});
        assert texts0 + m.Values + {value} == texts0 + (m.Values + {value});
        m := m[property := value];
      }
    }
    assert names[..|names|] == names;
  }

  // ----- A feature -----

  lemma {:induction false} MessagesAppend(a: seq<Field>, b: seq<Field>, num: nat)
    ensures Messages(a + b, num) == Messages(a, num) + Messages(b, num)
    ensures Numbers(a + b, num) == Numbers(a, num) + Numbers(b, num)
  {
    if a == [] {
      assert a + b == b;
    } else {
      var f, rest := a[0], a[1..];
      assert (a + b)[1..] == rest + b;
      MessagesAppend(rest, b, num);
      var m, n := if f.Message? && f.num == num then [f.value] else [], if f.Number? && f.num == num then [f.v] else [];
      assert m + (Messages(rest, num) + Messages(b, num)) == (m + Messages(rest, num)) + Messages(b, num);
      assert n + (Numbers(rest, num) + Numbers(b, num)) == (n + Numbers(rest, num)) + Numbers(b, num);
    }
  }

  lemma {:induction false} MessagesOne(f: Field, num: nat)
    ensures Messages([f], num) == if f.Message? && f.num == num then [f.value] else []
    ensures Numbers([f], num) == if f.Number? && f.num == num then [f.v] else []
  {
    assert [f][1..] == [];
  }

  function FeatureFields(codes: seq<nat>, kind: nat, geometry: Bytes): seq<Field> {
    (if codes == [] then [] else [Message(2, EncodedAll(codes))]) + [Number(3, kind), Message(4, geometry)]
  }

  lemma {:induction false} FeatureMessages(codes: seq<nat>, kind: nat, geometry: Bytes)
    ensures var fs := FeatureFields(codes, kind, geometry);
            && Messages(fs, 2) == (if codes == [] then [] else [EncodedAll(codes)])
            && Numbers(fs, 3) == [kind] && Messages(fs, 4) == [geometry]
  {
    hide EncodedAll, Messages, Numbers;
    var tags, rest := Message(2, EncodedAll(codes)), [Number(3, kind)] + [Message(4, geometry)];
    assert FeatureFields(codes, kind, geometry) == (if codes == [] then [] else [tags]) + rest;
    forall num | 2 <= num <= 4
      ensures Messages(rest, num) == (if num == 4 then [geometry] else [])
              && Numbers(rest, num) == (if num == 3 then [kind] else [])
    {
      MessagesAppend([Number(3, kind)], [Message(4, geometry)], num);
      MessagesOne(Number(3, kind), num);
      MessagesOne(Message(4, geometry), num);
    }
    if codes == [] {
      assert [] + rest == rest;
    } else {
      forall num | 2 <= num <= 4
        ensures Messages([tags] + rest, num) == (if num == 2 then [EncodedAll(codes)] else []) + Messages(rest, num)
                && Numbers([tags] + rest, num) == [] + Numbers(rest, num)
      {
        MessagesAppend([tags], rest, num);
        MessagesOne(tags, num);
      }
    }
  }

  /** A feature's bytes read back: its tags, and under the tables its properties. */
  lemma {:induction false} FeatureDecodes(codes: seq<nat>, kind: nat, geometry: Bytes,
                                          keys: seq<Bytes>, values: seq<Bytes>)
    requires kind < TWO_64 && Words(codes) && |EncodedFields(FeatureFields(codes, kind, geometry))| < TWO_64
    ensures var b := EncodedFields(FeatureFields(codes, kind, geometry));
            && TagCodes(Walk(b).0) == Some(codes)
            && DecodeFeature(b, keys, values)
               == match (DecodeTags(codes, keys, values), DecodeGeometry(geometry))
                  case (Some(m), Some(paths)) => Some(Drawn(kind, paths, m))
                  case _ => None
  {
    hide EncodedFields, EncodedAll, Unpacked, Walk, Messages, Numbers, DecodeTags, DecodeGeometry;
    WalkRecovers(FeatureFields(codes, kind, geometry));
    FeatureMessages(codes, kind, geometry);
    UnpackedPacked(codes);
    EncodedEmpty(codes);
  }

  /** The tags in a feature's bytes are 32-bit numbers. */
  ghost predicate NarrowTags(b: Bytes) {
    match TagCodes(Walk(b).0)
    case None => true
    case Some(codes) => Narrow(codes)
  }

  /** What a feature's bytes mean under the tables, if these can be indexed and the bytes counted. */
  ghost predicate FeatureMeans(b: Bytes, keys: Table, values: Table, d: Drawn) {
    |b| < TWO_64 ==>
      NarrowTags(b) && (Fit(keys, values) ==> DecodeFeature(b, keys.list, values.list) == Some(d))
  }

  lemma {:induction false} FeatureMeaning(codes: seq<nat>, kind: nat, geometry: Bytes,
                                          keys: Table, values: Table, d: Drawn)
    requires kind < TWO_64 && d.kind == kind
    requires Means(codes, keys, values, d.properties) && DecodeGeometry(geometry) == Some(d.paths)
    ensures FeatureMeans(EncodedFields(FeatureFields(codes, kind, geometry)), keys, values, d)
  {
    hide EncodedFields, DecodeTags, DecodeGeometry, DecodeFeature, TagCodes, Walk;
    if |EncodedFields(FeatureFields(codes, kind, geometry))| < TWO_64 {
      MeansWords(codes, keys, values, d.properties);
      FeatureDecodes(codes, kind, geometry, keys.list, values.list);
    }
  }

  method EncodeFeature(kind: nat, geometry: Bytes, properties: map<Bytes, Value>, keys0: Table, values0: Table,
                       ghost names: set<Bytes>, ghost texts: set<Bytes>, ghost paths: seq<Path>)
    returns (b: Bytes, keys: Table, values: Table)
    requires Records(keys0, names) && Records(values0, texts)
    requires kind < TWO_64 && DecodeGeometry(geometry) == Some(paths)
    ensures Records(keys, names + Texts(properties).Keys) && Records(values, texts + Texts(properties).Values)
    ensures keys0.list <= keys.list && values0.list <= values.list
    ensures FeatureMeans(b, keys, values, Drawn(kind, paths, Texts(properties)))
  {
    hide Records, Means, EncodedField, EncodedFields, EncodedAll, Texts, DecodeGeometry, FeatureMeans;
    ghost var codes;
    var tags;
    tags, keys, values, codes := EncodeTags(properties, keys0, values0, names, texts);
    b := [];
    EncodedEmpty(codes);
    if |tags| > 0 {
      b := AppendMessage(b, 2, tags);
    }
    b := AppendVarintField(b, 3, kind);
    b := AppendMessage(b, 4, geometry);
    FeatureBytes(codes, kind, geometry);
    ghost var k, g := EncodedField(Number(3, kind)), EncodedField(Message(4, geometry));
    assert b == (if codes == [] then [] else EncodedField(Message(2, tags))) + k + g;
    FeatureMeaning(codes, kind, geometry, keys, values, Drawn(kind, paths, Texts(properties)));
  }

  lemma {:induction false} FeatureBytes(codes: seq<nat>, kind: nat, geometry: Bytes)
    requires kind < TWO_64
    ensures EncodedFields(FeatureFields(codes, kind, geometry))
            == (if codes == [] then [] else EncodedField(Message(2, EncodedAll(codes))))
               + EncodedField(Number(3, kind)) + EncodedField(Message(4, geometry))
  {
    hide EncodedField, EncodedAll, EncodedFields;
    var k, g, t := Number(3, kind), Message(4, geometry), Message(2, EncodedAll(codes));
    EncodedFieldsOne(k);
    EncodedFieldsOne(g);
    EncodedFieldsAppend([k], [g]);
    assert [k] + [g] == [k, g];
    if codes == [] {
      assert FeatureFields(codes, kind, geometry) == [k, g];
      assert [] + EncodedField(k) + EncodedField(g) == EncodedField(k) + EncodedField(g);
    } else {
      EncodedFieldsOne(t);
      EncodedFieldsAppend([t], [k, g]);
      assert EncodedField(t) + EncodedField(k) + EncodedField(g)
             == EncodedField(t) + (EncodedField(k) + EncodedField(g));
    }
  }

  // ----- A layer -----

  function Wrap(num: nat, bs: seq<Bytes>): (fs: seq<Field>)
    ensures |fs| == |bs|
  {
    seq(|bs|, i requires 0 <= i < |bs| => Message(num, bs[i]))
  }

  function EncodedValue(v: Bytes): Bytes {
    EncodedField(Message(1, v))
  }

  function EncodedValues(vs: seq<Bytes>): (bs: seq<Bytes>)
    ensures |bs| == |vs|
  {
    seq(|vs|, i requires 0 <= i < |vs| => EncodedValue(vs[i]))
  }

  function LayerFields(name: Bytes, features: seq<Bytes>, keys: seq<Bytes>, values: seq<Bytes>): seq<Field> {
    [Message(1, name)] + Wrap(2, features) + Wrap(3, keys) + Wrap(4, EncodedValues(values))
    + [Number(5, TILE_EXTENT)] + [Number(15, 2)]
  }

  lemma {:induction false} WrapMessages(num: nat, bs: seq<Bytes>, m: nat)
    ensures Messages(Wrap(num, bs), m) == (if m == num then bs else [])
    ensures Numbers(Wrap(num, bs), m) == []
  {
    if bs != [] {
      assert Wrap(num, bs)[1..] == Wrap(num, bs[1..]);
      WrapMessages(num, bs[1..], m);
      assert [bs[0]] + bs[1..] == bs;
    }
  }

  /** Each kind of field of a layer. */
  lemma {:induction false} LayerMessages(name: Bytes, features: seq<Bytes>, keys: seq<Bytes>, values: seq<Bytes>,
                                         m: nat)
    ensures var fs := LayerFields(name, features, keys, values);
            && Messages(fs, m) == (if m == 1 then [name] else if m == 2 then features
                                   else if m == 3 then keys else if m == 4 then EncodedValues(values) else [])
            && Numbers(fs, m) == (if m == 5 then [TILE_EXTENT] else if m == 15 then [2] else [])
  {
    hide Messages, Numbers, Wrap, EncodedValues;
    var a, b, c, d := [Message(1, name)], Wrap(2, features), Wrap(3, keys), Wrap(4, EncodedValues(values));
    var e, v := [Number(5, TILE_EXTENT)], [Number(15, 2)];
    MessagesOne(a[0], m);
    WrapMessages(2, features, m);
    WrapMessages(3, keys, m);
    WrapMessages(4, EncodedValues(values), m);
    MessagesOne(e[0], m);
    MessagesOne(v[0], m);
    MessagesAppend(a, b, m);
    MessagesAppend(a + b, c, m);
    MessagesAppend(a + b + c, d, m);
    MessagesAppend(a + b + c + d, e, m);
    MessagesAppend(a + b + c + d + e, v, m);
  }

  lemma {:induction false} ValueDecodes(v: Bytes)
    requires |EncodedValue(v)| < TWO_64
    ensures DecodeValue(EncodedValue(v)) == Some(v)
  {
    hide EncodedField, Walk, EncodedFields;
    var f := Message(1, v);
    EncodedFieldsOne(f);
    WalkRecovers([f]);
    MessagesOne(f, 1);
  }

  lemma {:induction false} ValuesDecode(vs: seq<Bytes>)
    requires Counted(EncodedValues(vs))
    ensures DecodeValues(EncodedValues(vs)) == Some(vs)
  {
    hide EncodedValue, DecodeValue;
    if vs != [] {
      assert EncodedValues(vs)[0] == EncodedValue(vs[0]);
      ValueDecodes(vs[0]);
      assert EncodedValues(vs)[1..] == EncodedValues(vs[1..]);
      ValuesDecode(vs[1..]);
      assert [vs[0]] + vs[1..] == vs;
    }
  }

  lemma {:induction false} FeaturesDecode(bs: seq<Bytes>, keys: seq<Bytes>, values: seq<Bytes>, b: Bytes,
                                          ds: seq<Drawn>, d: Drawn)
    requires DecodeFeatures(bs, keys, values) == Some(ds) && DecodeFeature(b, keys, values) == Some(d)
    ensures DecodeFeatures(bs + [b], keys, values) == Some(ds + [d])
  {
    hide DecodeFeature;
    assert (bs + [b])[..|bs|] == bs;
  }

  ghost predicate Counted(bs: seq<Bytes>) {
    forall i :: 0 <= i < |bs| ==> |bs[i]| < TWO_64
  }

  ghost predicate AllNarrow(bs: seq<Bytes>) {
    forall i :: 0 <= i < |bs| ==> NarrowTags(bs[i])
  }

  /** What the encoded features mean under the tables, if these can be indexed and the bytes counted. */
  ghost predicate FeaturesMean(bs: seq<Bytes>, keys: Table, values: Table, ds: seq<Drawn>) {
    && |bs| == |ds|
    && (Counted(bs) ==>
          AllNarrow(bs) && (Fit(keys, values) ==> DecodeFeatures(bs, keys.list, values.list) == Some(ds)))
  }

  lemma {:induction false} FeaturesMeanMore(bs: seq<Bytes>, keys: Table, values: Table, ds: seq<Drawn>,
                                            b: Bytes, keys': Table, values': Table, d: Drawn)
    requires FeaturesMean(bs, keys, values, ds) && keys.list <= keys'.list && values.list <= values'.list
    requires FeatureMeans(b, keys', values', d)
    ensures FeaturesMean(bs + [b], keys', values', ds + [d])
  {
    hide DecodeFeature, DecodeFeatures, NarrowTags;
    var more := bs + [b];
    if Counted(more) {
      assert more[|bs|] == b;
      forall i | 0 <= i < |bs| ensures |bs[i]| < TWO_64 {
        assert more[i] == bs[i];
      }
      if Fit(keys', values') {
        FeaturesStay(bs, keys.list, values.list, keys'.list, values'.list);
        FeaturesDecode(bs, keys'.list, values'.list, b, ds, d);
      }
    }
  }

  // ----- Tables too large to be indexed -----

  /** What 32-bit codes can name is among the first 2^32 entries of a table. */
  lemma {:induction false} NarrowReach(codes: seq<nat>, keys: seq<Bytes>, values: seq<Bytes>, k: Bytes)
    requires Narrow(codes) && DecodeTags(codes, keys, values).Some? && k in DecodeTags(codes, keys, values).value
    ensures Reached(keys, k) && Reached(values, DecodeTags(codes, keys, values).value[k])
  {
    if codes != [] {
      var n := |codes|;
      var m := DecodeTags(codes[..n - 2], keys, values).value;
      if k in m {
        NarrowReach(codes[..n - 2], keys, values, k);
      }
    }
  }

  ghost predicate Reached(list: seq<Bytes>, k: Bytes) {
    exists i :: 0 <= i < |list| && i < TWO_32 && list[i] == k
  }

  lemma {:induction false} NarrowFeatures(bs: seq<Bytes>, keys: seq<Bytes>, values: seq<Bytes>, i: nat, k: Bytes)
    requires AllNarrow(bs) && DecodeFeatures(bs, keys, values).Some?
    ensures var ds := DecodeFeatures(bs, keys, values).value;
            && |ds| == |bs|
            && (i < |ds| && k in ds[i].properties ==> Reached(keys, k) && Reached(values, ds[i].properties[k]))
  {
    hide Walk, DecodeTags, TagCodes, DecodeGeometry, Messages, Numbers, Narrow, Reached;
    if bs != [] {
      var n := |bs| - 1;
      NarrowFeatures(bs[..n], keys, values, i, k);
      var ds := DecodeFeatures(bs, keys, values).value;
      if i == n && k in ds[n].properties {
        assert NarrowTags(bs[n]);
        NarrowReach(TagCodes(Walk(bs[n]).0).value, keys, values, k);
      }
    }
  }

  lemma {:induction false} BeyondReach(list: seq<Bytes>)
    requires Distinct(list) && |list| > TWO_32
    ensures list[TWO_32] in list && !Reached(list, list[TWO_32])
  {
  }

  lemma {:induction false} ReachedAll(list: seq<Bytes>)
    requires Distinct(list) && forall k :: k in list ==> Reached(list, k)
    ensures |list| <= TWO_32
  {
    hide Distinct, Reached;
    if |list| > TWO_32 {
      BeyondReach(list);
      assert false;
    }
  }

  /** Features that read back as they were cannot have come with a table that is too large: the entry
      at index 2^32 would be out of their reach. */
  lemma {:induction false} ReadBackFits(bs: seq<Bytes>, keys: Table, values: Table, ds: seq<Drawn>)
    requires AllNarrow(bs) && DecodeFeatures(bs, keys.list, values.list) == Some(ds)
    requires Records(keys, Names(ds)) && Records(values, Contents(ds))
    ensures Fit(keys, values)
  {
    hide DecodeFeatures, AllNarrow, Reached, Distinct;
    forall k | k in keys.list ensures Reached(keys.list, k) {
      assert k in Names(ds);
      var i: nat :| i < |ds| && k in ds[i].properties;
      NarrowFeatures(bs, keys.list, values.list, i, k);
    }
    forall v | v in values.list ensures Reached(values.list, v) {
      assert v in Contents(ds);
      var i: nat, k :| i < |ds| && k in ds[i].properties && ds[i].properties[k] == v;
      NarrowFeatures(bs, keys.list, values.list, i, k);
    }
    ReachedAll(keys.list);
    ReachedAll(values.list);
  }

  lemma {:induction false} NamesMore(ds: seq<Drawn>, d: Drawn)
    ensures Names(ds + [d]) == Names(ds) + d.properties.Keys
    ensures Contents(ds + [d]) == Contents(ds) + d.properties.Values
  {
    var more := ds + [d];
    assert more[|ds|] == d && forall i :: 0 <= i < |ds| ==> more[i] == ds[i];
    forall k ensures k in Names(more) <==> k in Names(ds) + d.properties.Keys {
      if k in Names(ds) {
        var i :| 0 <= i < |ds| && k in ds[i].properties;
        assert k in more[i].properties;
      }
    }
    forall v ensures v in Contents(more) <==> v in Contents(ds) + d.properties.Values {
      if v in Contents(ds) {
        var i, k :| 0 <= i < |ds| && k in ds[i].properties && ds[i].properties[k] == v;
        assert k in more[i].properties && more[i].properties[k] == v;
      }
      if v in d.properties.Values {
        var k :| k in d.properties && d.properties[k] == v;
        assert k in more[|ds|].properties;
      }
    }
  }

  lemma {:induction false} WrapWritten(num: nat, bs: seq<Bytes>)
    requires 8 * num + 2 < TWO_64
    ensures AllWritten(Wrap(num, bs))
  {
  }

  method AppendMessages(dst: Bytes, num: nat, bs: seq<Bytes>) returns (out: Bytes)
    requires 8 * num + 2 < TWO_64 && AllWritten(Wrap(num, bs))
    ensures out == dst + EncodedFields(Wrap(num, bs))
  {
    hide EncodedField, EncodedFields;
    out := dst;
    NoFields();
    assert Wrap(num, bs[..0]) == [];
    for i := 0 to |bs|
      invariant AllWritten(Wrap(num, bs[..i])) && out == dst + EncodedFields(Wrap(num, bs[..i]))
    {
      var f := Message(num, bs[i]);
      assert Wrap(num, bs[..i + 1]) == Wrap(num, bs[..i]) + [f];
      EncodedFieldsOne(f);
      EncodedFieldsAppend(Wrap(num, bs[..i]), [f]);
      out := AppendMessage(out, num, bs[i]);
    }
    assert bs[..|bs|] == bs;
  }

  lemma {:induction false} NoFields()
    ensures EncodedFields([]) == []
  {
  }

  /** encodeValue, for each entry of the table. */
  method EncodeValues(vs: seq<Bytes>) returns (bs: seq<Bytes>)
    ensures bs == EncodedValues(vs)
  {
    hide EncodedField;
    bs := [];
    for i := 0 to |vs|
      invariant bs == EncodedValues(vs[..i])
    {
      var b := AppendMessage([], 1, vs[i]);
      assert [] + EncodedValue(vs[i]) == EncodedValue(vs[i]);
      assert EncodedValues(vs[..i + 1]) == EncodedValues(vs[..i]) + [EncodedValue(vs[i])];
      bs := bs + [b];
    }
    assert vs[..|vs|] == vs;
  }

  /** The fields of a layer in their order. */
  method WriteLayer(name: Bytes, features: seq<Bytes>, keys: seq<Bytes>, values: seq<Bytes>) returns (layer: Bytes)
    ensures AllWritten(LayerFields(name, features, keys, values))
    ensures layer == EncodedFields(LayerFields(name, features, keys, values))
  {
    hide EncodedField, EncodedFields, Wrap, EncodedValues;
    var encoded := EncodeValues(values);
    ghost var a, b, c, d := [Message(1, name)], Wrap(2, features), Wrap(3, keys), Wrap(4, encoded);
    ghost var e, v := [Number(5, TILE_EXTENT)], [Number(15, 2)];
    WrapWritten(2, features);
    WrapWritten(3, keys);
    WrapWritten(4, encoded);
    EncodedFieldsOne(a[0]);
    EncodedFieldsOne(e[0]);
    EncodedFieldsOne(v[0]);
    EncodedFieldsAppend(a, b);
    EncodedFieldsAppend(a + b, c);
    EncodedFieldsAppend(a + b + c, d);
    EncodedFieldsAppend(a + b + c + d, e);
    EncodedFieldsAppend(a + b + c + d + e, v);
    layer := AppendMessage([], 1, name);
    layer := AppendMessages(layer, 2, features);
    layer := AppendMessages(layer, 3, keys);
    layer := AppendMessages(layer, 4, encoded);
    layer := AppendVarintField(layer, 5, TILE_EXTENT);
    layer := AppendVarintField(layer, 15, 2);
  }

  /** In a layer whose bytes can be counted so can those of every part. */
  lemma {:induction false} LayerParts(name: Bytes, features: seq<Bytes>, keys: seq<Bytes>, values: seq<Bytes>)
    requires AllWritten(LayerFields(name, features, keys, values))
    requires |EncodedFields(LayerFields(name, features, keys, values))| < TWO_64
    ensures Counted(features) && Counted(EncodedValues(values))
  {
    hide EncodedFields, EncodedField, EncodedValue;
    var fs := LayerFields(name, features, keys, values);
    PartsFit(fs);
    forall i | 0 <= i < |features| ensures |features[i]| < TWO_64 {
      assert fs[1 + i] == Message(2, features[i]);
    }
    var vs := EncodedValues(values);
    forall i | 0 <= i < |vs| ensures |vs[i]| < TWO_64 {
      assert fs[1 + |features| + |keys| + i] == Message(4, vs[i]);
    }
  }

  /** A layer reads back as its features do under its tables. */
  lemma {:induction false} LayerDecodes(name: Bytes, features: seq<Bytes>, keys: seq<Bytes>, values: seq<Bytes>)
    requires AllWritten(LayerFields(name, features, keys, values))
    requires |EncodedFields(LayerFields(name, features, keys, values))| < TWO_64
    ensures DecodeLayer(EncodedFields(LayerFields(name, features, keys, values)))
            == match DecodeFeatures(features, keys, values)
               case None => None
               case Some(ds) => Some(Layer(name, 2, TILE_EXTENT, ds))
  {
    hide LayerFields, EncodedFields, Walk, Messages, Numbers, EncodedValues, DecodeFeatures, DecodeValues;
    var fs := LayerFields(name, features, keys, values);
    LayerParts(name, features, keys, values);
    WalkRecovers(fs);
    forall m | 1 <= m <= 15
      ensures Messages(fs, m) == (if m == 1 then [name] else if m == 2 then features
                                  else if m == 3 then keys else if m == 4 then EncodedValues(values) else [])
              && Numbers(fs, m) == (if m == 5 then [TILE_EXTENT] else if m == 15 then [2] else [])
    {
      LayerMessages(name, features, keys, values, m);
    }
    ValuesDecode(values);
  }

  /** Whether both tables of a layer can be indexed in 32 bits: what its features say decides. */
  ghost predicate Indexable(ds: seq<Drawn>) {
    |Names(ds)| <= TWO_32 && |Contents(ds)| <= TWO_32
  }

  lemma {:induction false} LayerMeaning(name: Bytes, bs: seq<Bytes>, keys: Table, values: Table, ds: seq<Drawn>)
    requires FeaturesMean(bs, keys, values, ds) && Records(keys, Names(ds)) && Records(values, Contents(ds))
    requires AllWritten(LayerFields(name, bs, keys.list, values.list))
    requires |EncodedFields(LayerFields(name, bs, keys.list, values.list))| < TWO_64
    ensures var layer := EncodedFields(LayerFields(name, bs, keys.list, values.list));
            DecodeLayer(layer) == Some(Layer(name, 2, TILE_EXTENT, ds)) <==> Indexable(ds)
  {
    hide DecodeLayer, DecodeFeatures, LayerFields, EncodedFields, AllNarrow, Records, Counted, AllWritten, Names,
         Contents;
    LayerParts(name, bs, keys.list, values.list);
    LayerDecodes(name, bs, keys.list, values.list);
    TableSize(keys, Names(ds));
    TableSize(values, Contents(ds));
    if DecodeFeatures(bs, keys.list, values.list) == Some(ds) {
      ReadBackFits(bs, keys, values, ds);
    }
  }

  lemma {:induction false} NothingYet(keys: Table, values: Table)
    requires keys == values == Table(map[], [])
    ensures Records(keys, Names([])) && Records(values, Contents([])) && FeaturesMean([], keys, values, [])
  {
    NothingRecorded(keys);
    assert Names([]) == {} && Contents([]) == {};
  }

  lemma {:induction false} SameCount(bs: seq<Bytes>, keys: Table, values: Table, ds: seq<Drawn>)
    requires FeaturesMean(bs, keys, values, ds)
    ensures |bs| == |ds|
  {
  }

  /** encodeLayer: a layer with nothing to draw is not written at all. Any other reads back as it was,
      its name and every feature of which something is left, in order, with its kind, its paths and its
      text properties, exactly when 32 bits can index the names and the texts of these features. The version
      is 2 and the extent 4096. */
  method EncodeLayer(name: Bytes, features: seq<Feature>, t: Tools) returns (layer: Bytes)
    requires forall i :: 0 <= i < |features| ==> InMemory(Paths(features[i].shape, t))
    ensures exists ix :: ShowsFeatures(features, t, ix, Visible(features, t))
    ensures Visible(features, t) == [] ==> layer == []
    ensures Visible(features, t) != [] && |layer| < TWO_64 ==>
              (DecodeLayer(layer) == Some(Layer(name, 2, 4096, Visible(features, t)))
               <==> Indexable(Visible(features, t)))
  {
    ghost var ix := VisibleShows(features, t);
    hide ShowsFeatures, Records, DecodeGeometry, DecodeFeatures, DecodeLayer, FeaturesMean, FeatureMeans, LayerFields,
         EncodedFields, AllWritten, Texts, Names, Contents, Paths, InMemory, Indexable;
    if |features| == 0 {
      return [];
    }
    var keys, values := Table(map[], []), Table(map[], []);
    var encoded: seq<Bytes> := [];
    ghost var ds: seq<Drawn> := [];
    NothingYet(keys, values);
    for i := 0 to |features|
      invariant ds == Visible(features[..i], t)
      invariant Records(keys, Names(ds)) && Records(values, Contents(ds))
      invariant FeaturesMean(encoded, keys, values, ds)
    {
      assert features[..i + 1][..i] == features[..i];
      var f := features[i];
      var geometry := EncodeGeometry(f.shape, t);
      if |geometry| > 0 {
        ghost var ks, vs, d := keys, values, Drawn(f.shape.kind, Paths(f.shape, t), Texts(f.properties));
        var b;
        b, keys, values := EncodeFeature(f.shape.kind, geometry, f.properties, keys, values, Names(ds), Contents(ds),
            d.paths);
        FeaturesMeanMore(encoded, ks, vs, ds, b, keys, values, d);
        NamesMore(ds, d);
        encoded := encoded + [b];
        ds := ds + [d];
      }
    }
    assert features[..|features|] == features;
    SameCount(encoded, keys, values, ds);
    if |encoded| == 0 {
      return [];
    }
    layer := WriteLayer(name, encoded, keys.list, values.list);
    if |layer| < TWO_64 {
      LayerMeaning(name, encoded, keys, values, ds);
    }
  }

  // ----- A layer byte by byte -----

  lemma {:induction false} MessageBytes(num: nat, value: Bytes)
    requires num < 15 && |value| < 128
    ensures EncodedField(Message(num, value)) == [8 * num + 2, |value|] + value
  {
    hide Encoded;
    EncodedExamples(8 * num + 2);
    EncodedExamples(|value|);
    assert [8 * num + 2] + ([|value|] + value) == [8 * num + 2, |value|] + value;
  }

  lemma {:induction false} NumberBytes(num: nat, v: nat)
    requires num < 16 && v < 128
    ensures EncodedField(Number(num, v)) == [8 * num, v]
  {
    hide Encoded;
    EncodedExamples(8 * num);
    EncodedExamples(v);
  }

  lemma {:induction false} FieldsFrom(f: Field, rest: seq<Field>)
    requires AllWritten([f] + rest)
    ensures Written(f) && AllWritten(rest) && EncodedFields([f] + rest) == EncodedField(f) + EncodedFields(rest)
  {
    hide EncodedField, Written;
    assert ([f] + rest)[0] == f && ([f] + rest)[1..] == rest;
  }

  /** A line from (2, 2) by (2, 10) to (10, 10), with the first name and the first text of the tables. */
  const LINE_FEATURE: Bytes := [18, 2, 0, 0, 24, 2, 34, 8, 9, 4, 4, 18, 0, 16, 16, 0]

  lemma {:induction false} LineBytes()
    ensures EncodedAll([9, 4, 4, 18, 0, 16, 16, 0]) == [9, 4, 4, 18, 0, 16, 16, 0]
    ensures EncodedAll([0, 0]) == [0, 0]
  {
    SmallNumbers([9, 4, 4, 18, 0, 16, 16, 0]);
    SmallNumbers([0, 0]);
  }

  lemma {:induction false} SmallNumbers(vs: seq<nat>)
    requires forall i :: 0 <= i < |vs| ==> vs[i] < 128
    ensures EncodedAll(vs) == vs
  {
    hide Encoded;
    if vs != [] {
      EncodedExamples(vs[0]);
      SmallNumbers(vs[1..]);
      assert [vs[0]] + vs[1..] == vs;
    }
  }

  lemma {:induction false} LineFeatureBytes()
    ensures AllWritten(FeatureFields([0, 0], 2, [9, 4, 4, 18, 0, 16, 16, 0]))
    ensures EncodedFields(FeatureFields([0, 0], 2, [9, 4, 4, 18, 0, 16, 16, 0])) == LINE_FEATURE
  {
    hide EncodedAll, EncodedField, EncodedFields;
    var g := [9, 4, 4, 18, 0, 16, 16, 0];
    LineBytes();
    var a, b, c := Message(2, [0, 0]), Number(3, 2), Message(4, g);
    assert FeatureFields([0, 0], 2, g) == [a] + ([b] + [c]);
    FieldsFrom(a, [b] + [c]);
    FieldsFrom(b, [c]);
    EncodedFieldsOne(c);
    MessageBytes(2, [0, 0]);
    NumberBytes(3, 2);
    MessageBytes(4, g);
  }

  const EXAMPLE_LAYER: Bytes :=
    [10, 1, 97] + [18, 16] + LINE_FEATURE + [26, 1, 107] + [34, 3, 10, 1, 118] + [40, 128, 32] + [120, 2]

  lemma {:induction false} ValueBytes()
    ensures EncodedValues([[118]]) == [[10, 1, 118]]
  {
    MessageBytes(1, [118]);
    assert [10, 1] + [118] == [10, 1, 118];
    assert EncodedValues([[118]])[0] == [10, 1, 118];
  }

  lemma {:induction false} LayerBytes()
    ensures AllWritten(LayerFields([97], [LINE_FEATURE], [[107]], [[118]]))
    ensures EncodedFields(LayerFields([97], [LINE_FEATURE], [[107]], [[118]])) == EXAMPLE_LAYER
  {
    hide EncodedField, EncodedFields, EncodedValues, Encoded;
    ValueBytes();
    var a, b, c, d := Message(1, [97]), Message(2, LINE_FEATURE), Message(3, [107]), Message(4, [10, 1, 118]);
    var e, v := Number(5, 4096), Number(15, 2);
    var fs := [a] + ([b] + ([c] + ([d] + ([e] + [v]))));
    assert LayerFields([97], [LINE_FEATURE], [[107]], [[118]]) == fs;
    FieldsFrom(a, [b] + ([c] + ([d] + ([e] + [v]))));
    FieldsFrom(b, [c] + ([d] + ([e] + [v])));
    FieldsFrom(c, [d] + ([e] + [v]));
    FieldsFrom(d, [e] + [v]);
    FieldsFrom(e, [v]);
    EncodedFieldsOne(v);
    MessageBytes(1, [97]);
    MessageBytes(2, LINE_FEATURE);
    MessageBytes(3, [107]);
    MessageBytes(4, [10, 1, 118]);
    ExtentBytes();
    NumberBytes(15, 2);
  }

  lemma {:induction false} ExtentBytes()
    ensures EncodedField(Number(5, 4096)) == [40, 128, 32]
  {
    EncodedExamples(40);
    EncodedExamples(32);
    assert Encoded(4096) == [128] + Encoded(32);
  }

  /** A layer spelled out by section 4 of the Mapbox Vector Tile Specification 2.1: the name in field 1, features
      in 2, the tables in 3 and 4, extent in 5 and version in 15; of the feature tags in 2, kind in 3 and geometry
      in 4. */
  lemma {:induction false} ExampleOfSpecification()
    ensures var line := [Geometry.Point(2, 2), Geometry.Point(2, 10), Geometry.Point(10, 10)];
            DecodeLayer(EXAMPLE_LAYER)
            == Some(Layer([97], 2, 4096, [Drawn(2, [Path(line, false)], map[[107] := [118]])]))
  {
    hide DecodeLayer, DecodeFeature, DecodeFeatures, LayerFields, EncodedFields, EncodedAll, FeatureFields, DecodeTags;
    var line := [Geometry.Point(2, 2), Geometry.Point(2, 10), Geometry.Point(10, 10)];
    var g := [9, 4, 4, 18, 0, 16, 16, 0];
    LayerBytes();
    LayerDecodes([97], [LINE_FEATURE], [[107]], [[118]]);
    LineFeatureBytes();
    FeatureDecodes([0, 0], 2, g, [[107]], [[118]]);
    ExampleTags();
    ExampleGeometry();
    OneFeature(LINE_FEATURE, [[107]], [[118]], Drawn(2, [Path(line, false)], map[[107] := [118]]));
  }

  lemma {:induction false} OneFeature(b: Bytes, keys: seq<Bytes>, values: seq<Bytes>, d: Drawn)
    requires DecodeFeature(b, keys, values) == Some(d)
    ensures DecodeFeatures([b], keys, values) == Some([d])
  {
    hide DecodeFeature;
    assert [b][..0] == [];
    assert DecodeFeatures([], keys, values) == Some([]);
    assert [] + [d] == [d];
  }

  lemma {:induction false} ExampleTags()
    ensures DecodeTags([0, 0], [[107]], [[118]]) == Some(map[[107] := [118]])
  {
    assert [0, 0][..0] == [];
    assert DecodeTags([], [[107]], [[118]]) == Some(map[]);
  }

  lemma {:induction false} ExampleGeometry()
    ensures var line := [Geometry.Point(2, 2), Geometry.Point(2, 10), Geometry.Point(10, 10)];
            DecodeGeometry([9, 4, 4, 18, 0, 16, 16, 0]) == Some([Path(line, false)])
  {
    hide EncodedAll, Unpacked, PathCodes;
    var line := [Geometry.Point(2, 2), Geometry.Point(2, 10), Geometry.Point(10, 10)];
    var g := [9, 4, 4, 18, 0, 16, 16, 0];
    var o := Geometry.Point(0, 0);
    LineBytes();
    ExamplesOfSpecification();
    PathCodesWords(line, o, false);
    UnpackedPacked(g);
    DrawPath(line, o, false, [], []);
    assert g + [] == g && [] + [Path(line, false)] == [Path(line, false)];
    DrawnAll(Pen([Path(line, false)], line[2]));
  }

  lemma {:induction false} DrawnAll(pen: Pen)
    ensures Draw([], 0, 0, pen) == Some(pen)
  {
  }
}
