/** Which rows the uncapped projection has (src/document_fields.rs): one for every scalar leaf the
    depth limit reaches, and no others. */
module ProjectionLaws {
  import opened Options
  import opened Ordering
  import opened Frontmatter
  import opened Projection

  // ---- places in a document ----

  datatype Turn = Key(key: string) | Index(index: nat)

  function At(v: Value, loc: seq<Turn>): Option<Value>
    decreases |loc|
  {
    if loc == [] then Some(v) else
    match loc[0]
    case Key(k) => if v.Obj? && k in v.fields then At(v.fields[k], loc[1..]) else None
    case Index(i) => if v.Arr? && i < |v.items| then At(v.items[i], loc[1..]) else None
  }

  /** The path steps of a place: a name per field, `[]` per list element that is a container. */
  function PathOf(v: Value, loc: seq<Turn>): seq<Step>
    requires At(v, loc).Some?
    decreases |loc|
  {
    if loc == [] then [] else
    match loc[0]
    case Key(k) => [Name(k)] + PathOf(v.fields[k], loc[1..])
    case Index(i) => (if IsContainer(v.items[i]) then [Each] else []) + PathOf(v.items[i], loc[1..])
  }

  /** The position in the outermost list of containers on the way to a place. */
  function ElemOf(v: Value, loc: seq<Turn>): Option<nat>
    requires At(v, loc).Some?
    decreases |loc|
  {
    if loc == [] then None else
    match loc[0]
    case Key(k) => ElemOf(v.fields[k], loc[1..])
    case Index(i) => if IsContainer(v.items[i]) then Some(i) else None
  }

  /** The schema node governing a place. */
  function NodeOf(v: Value, node: Option<FieldDef>, loc: seq<Turn>): Option<FieldDef>
    requires At(v, loc).Some?
    decreases |loc|
  {
    if loc == [] then node else
    match loc[0]
    case Key(k) => NodeOf(v.fields[k], Child(node, k), loc[1..])
    case Index(i) => NodeOf(v.items[i], ElementNode(node), loc[1..])
  }

  function Within(elem: Option<nat>, inner: Option<nat>): Option<nat> { if elem.Some? then elem else inner }

  /** `r` is the row of the scalar at `loc`, which the depth limit reaches. */
  predicate IsLeafRow(
      fmt: Formats, path: seq<Step>, v: Value, node: Option<FieldDef>, elem: Option<nat>, loc: seq<Turn>, r: Row) {
    && At(v, loc).Some? && |r.path| <= MAX_FIELD_PATH_DEPTH
    && r.path == path + PathOf(v, loc)
    && CanonicalText(fmt, At(v, loc).value) == Some(r.text)
    && r.elem == ElemOr(Within(elem, ElemOf(v, loc)))
    && r.num == ScalarNumeric(fmt, NodeOf(v, node, loc), At(v, loc).value)
  }

  // ---- one row for every place ----

  /** Which row belongs to which place. */
  type Owner = (seq<Turn>, Row) -> bool

  function LeafRows(fmt: Formats, path: seq<Step>, v: Value, node: Option<FieldDef>, elem: Option<nat>): Owner {
    (loc: seq<Turn>, r: Row) => IsLeafRow(fmt, path, v, node, elem, loc, r)
  }

  ghost predicate OwnedAt(owner: Owner, rows: seq<Row>, locs: seq<seq<Turn>>, i: nat)
    requires i < |rows| && i < |locs|
  {
    owner(locs[i], rows[i])
  }

  ghost predicate Complete(owner: Owner, locs: seq<seq<Turn>>, loc: seq<Turn>) {
    (exists r :: owner(loc, r)) ==> loc in locs
  }

  /** `locs` pairs the rows off with the places that own one: no place comes up twice, and none is missing. */
  ghost predicate OnePerPlace(owner: Owner, rows: seq<Row>, locs: seq<seq<Turn>>) {
    && |locs| == |rows|
    && (forall i: nat :: i < |rows| ==> OwnedAt(owner, rows, locs, i))
    && (forall i: nat, j: nat :: i < j < |locs| ==> locs[i] != locs[j])
    && (forall loc :: Complete(owner, locs, loc))
  }

  predicate StartsIn(loc: seq<Turn>, heads: set<Turn>) { loc != [] && loc[0] in heads }

  /** The same among the places that start with one of `heads`. */
  ghost predicate Placed(owner: Owner, rows: seq<Row>, locs: seq<seq<Turn>>, heads: set<Turn>) {
    && |locs| == |rows|
    && (forall i: nat :: i < |rows| ==> OwnedAt(owner, rows, locs, i))
    && (forall i: nat :: i < |locs| ==> StartsIn(locs[i], heads))
    && (forall i: nat, j: nat :: i < j < |locs| ==> locs[i] != locs[j])
    && (forall loc :: StartsIn(loc, heads) ==> Complete(owner, locs, loc))
  }

  lemma PlacedJoin(
      owner: Owner, rows: seq<Row>, locs: seq<seq<Turn>>, heads: set<Turn>, rows': seq<Row>, locs': seq<seq<Turn>>,
      heads': set<Turn>)
    requires Placed(owner, rows, locs, heads) && Placed(owner, rows', locs', heads') && heads !! heads'
    ensures Placed(owner, rows + rows', locs + locs', heads + heads')
  {
    var n := |rows|;
    forall i: nat | i < n + |rows'|
      ensures OwnedAt(owner, rows + rows', locs + locs', i)
    {
      if i < n { assert OwnedAt(owner, rows, locs, i); } else { assert OwnedAt(owner, rows', locs', i - n); }
    }
    forall i: nat | i < n + |rows'|
      ensures StartsIn((locs + locs')[i], heads + heads')
    {
      if i < n { assert StartsIn(locs[i], heads); } else { assert StartsIn(locs'[i - n], heads'); }
    }
    forall i: nat, j: nat | i < j < n + |rows'|
      ensures (locs + locs')[i] != (locs + locs')[j]
    {
      if i < n { assert StartsIn(locs[i], heads); }
      if j >= n { assert StartsIn(locs'[j - n], heads'); }
    }
    forall loc | StartsIn(loc, heads + heads')
      ensures Complete(owner, locs + locs', loc)
    {
      if StartsIn(loc, heads) { assert Complete(owner, locs, loc); } else { assert Complete(owner, locs', loc); }
    }
  }

  lemma PlacedWhole(owner: Owner, rows: seq<Row>, locs: seq<seq<Turn>>, heads: set<Turn>)
    requires Placed(owner, rows, locs, heads)
    requires forall loc, r :: owner(loc, r) ==> StartsIn(loc, heads)
    ensures OnePerPlace(owner, rows, locs)
  {
    forall loc
      ensures Complete(owner, locs, loc)
    {
      if StartsIn(loc, heads) { assert Complete(owner, locs, loc); }
    }
  }

  /** Where no place owns a row. */
  lemma NonePlaced(owner: Owner, heads: set<Turn>)
    requires forall loc, r :: owner(loc, r) ==> !StartsIn(loc, heads)
    ensures Placed(owner, [], [], heads)
  {
  }

  function Beneath(t: Turn, locs: seq<seq<Turn>>): (r: seq<seq<Turn>>)
    ensures |r| == |locs| && forall i :: 0 <= i < |r| ==> r[i] == [t] + locs[i]
  {
    seq(|locs|, i requires 0 <= i < |locs| => [t] + locs[i])
  }

  /** The places below one turn, seen from above it. */
  lemma PlacedUnder(owner: Owner, inner: Owner, t: Turn, rows: seq<Row>, locs: seq<seq<Turn>>)
    requires OnePerPlace(inner, rows, locs)
    requires forall rest, r :: owner([t] + rest, r) <==> inner(rest, r)
    ensures Placed(owner, rows, Beneath(t, locs), {t})
  {
    var under := Beneath(t, locs);
    forall i: nat | i < |rows|
      ensures OwnedAt(owner, rows, under, i)
    {
      assert OwnedAt(inner, rows, locs, i) && under[i] == [t] + locs[i];
    }
    forall i: nat, j: nat | i < j < |locs|
      ensures under[i] != under[j]
    {
      assert under[i][1..] == locs[i] && under[j][1..] == locs[j];
    }
    forall loc | StartsIn(loc, {t})
      ensures Complete(owner, under, loc)
    {
      var rest := loc[1..];
      assert loc == [t] + rest && Complete(inner, locs, rest);
      if r :| owner(loc, r) {
        assert inner(rest, r);
        var i: nat :| i < |locs| && locs[i] == rest;
        assert under[i] == loc;
      }
    }
  }

  // ---- one turn down ----

  function PathInto(path: seq<Step>, v: Value, t: Turn): seq<Step>
    requires At(v, [t]).Some?
  {
    match t
    case Key(k) => path + [Name(k)]
    case Index(i) => if IsContainer(v.items[i]) then path + [Each] else path
  }

  function NodeInto(node: Option<FieldDef>, t: Turn): Option<FieldDef> {
    match t
    case Key(k) => Child(node, k)
    case Index(_) => ElementNode(node)
  }

  function ElemInto(v: Value, elem: Option<nat>, t: Turn): Option<nat>
    requires At(v, [t]).Some?
  {
    match t
    case Key(_) => elem
    case Index(i) => if IsContainer(v.items[i]) then Within(elem, Some(i)) else elem
  }

  lemma ScalarAt(v: Value, loc: seq<Turn>)
    requires !IsContainer(v) && At(v, loc).Some?
    ensures loc == [] && PathOf(v, loc) == [] && ElemOf(v, loc) == None
  {
  }

  /** A place below a turn owns the same row seen from above and from below the turn. */
  lemma LeafInto(
      fmt: Formats, path: seq<Step>, v: Value, node: Option<FieldDef>, elem: Option<nat>, t: Turn, rest: seq<Turn>,
      r: Row)
    requires At(v, [t]).Some?
    ensures IsLeafRow(fmt, path, v, node, elem, [t] + rest, r)
            <==> IsLeafRow(fmt, PathInto(path, v, t), At(v, [t]).value, NodeInto(node, t), ElemInto(v, elem, t),
                           rest, r)
  {
    hide CanonicalText, ScalarNumeric;
    var loc, sub := [t] + rest, At(v, [t]).value;
    assert loc[0] == t && loc[1..] == rest && [t][1..] == [];
    assert At(v, loc) == At(sub, rest);
    if At(sub, rest).Some? {
      assert path + PathOf(v, loc) == PathInto(path, v, t) + PathOf(sub, rest);
      if !IsContainer(sub) { ScalarAt(sub, rest); }
    }
  }

  lemma NoneBeyond(
      fmt: Formats, path: seq<Step>, v: Value, node: Option<FieldDef>, elem: Option<nat>, loc: seq<Turn>, r: Row)
    requires IsLeafRow(fmt, path, v, node, elem, loc, r) && |path| >= MAX_FIELD_PATH_DEPTH
    ensures loc == [] || (v.Arr? && loc[0].Index? && !IsContainer(v.items[loc[0].index]))
  {
  }

  lemma RowsUnder(
      fmt: Formats, path: seq<Step>, v: Value, node: Option<FieldDef>, elem: Option<nat>, t: Turn, rows: seq<Row>,
      locs: seq<seq<Turn>>)
    requires At(v, [t]).Some?
    requires OnePerPlace(
               LeafRows(fmt, PathInto(path, v, t), At(v, [t]).value, NodeInto(node, t), ElemInto(v, elem, t)),
               rows, locs)
    ensures Placed(LeafRows(fmt, path, v, node, elem), rows, Beneath(t, locs), {t})
  {
    hide OnePerPlace, Placed, IsLeafRow;
    var owner := LeafRows(fmt, path, v, node, elem);
    var inner := LeafRows(fmt, PathInto(path, v, t), At(v, [t]).value, NodeInto(node, t), ElemInto(v, elem, t));
    forall rest, r
      ensures owner([t] + rest, r) <==> inner(rest, r)
    {
      LeafInto(fmt, path, v, node, elem, t, rest, r);
    }
    PlacedUnder(owner, inner, t, rows, locs);
  }

  // ---- the whole walk ----

  lemma {:induction false} PlacesOf(fmt: Formats, path: seq<Step>, v: Value, node: Option<FieldDef>, elem: Option<nat>)
    returns (locs: seq<seq<Turn>>)
    requires |path| <= MAX_FIELD_PATH_DEPTH
    ensures OnePerPlace(LeafRows(fmt, path, v, node, elem), Rows(fmt, path, v, node, elem), locs)
    decreases v, 2, 0
  {
    hide Placed, OnePerPlace, IsLeafRow, KeysOf;
    var owner, rows := LeafRows(fmt, path, v, node, elem), Rows(fmt, path, v, node, elem);
    match v
    case Arr(items) =>
      locs := PlacesOfItems(fmt, path, v, node, elem, |items|);
      forall loc, r | owner(loc, r)
        ensures StartsIn(loc, Indices(|items|))
      {
        LeafIsInside(fmt, path, v, node, elem, loc, r);
      }
      PlacedWhole(owner, rows, locs, Indices(|items|));
    case Obj(fields) =>
      var keys := if |path| >= MAX_FIELD_PATH_DEPTH then [] else KeysOf(fields);
      KeysAreFields(fields);
      forall loc, r | owner(loc, r)
        ensures StartsIn(loc, Names(keys))
      {
        LeafIsInside(fmt, path, v, node, elem, loc, r);
        if |path| >= MAX_FIELD_PATH_DEPTH { NoneBeyond(fmt, path, v, node, elem, loc, r); }
      }
      if |path| >= MAX_FIELD_PATH_DEPTH {
        NonePlaced(owner, Names(keys));
        locs := [];
      } else {
        locs := PlacesOfKeys(fmt, path, v, node, elem, keys);
      }
      PlacedWhole(owner, rows, locs, Names(keys));
    case _ => locs := PlaceOfScalar(fmt, path, v, node, elem);
  }

  function Indices(n: nat): set<Turn> { set i: nat | i < n :: Index(i) }

  function Names(keys: seq<string>): set<Turn> { set k | k in keys :: Key(k) }

  lemma LeafIsInside(
      fmt: Formats, path: seq<Step>, v: Value, node: Option<FieldDef>, elem: Option<nat>, loc: seq<Turn>, r: Row)
    requires IsContainer(v) && IsLeafRow(fmt, path, v, node, elem, loc, r)
    ensures loc != []
    ensures v.Arr? ==> StartsIn(loc, Indices(|v.items|))
    ensures v.Obj? ==> loc[0].Key? && loc[0].key in v.fields
  {
  }

  lemma PlaceOfScalar(fmt: Formats, path: seq<Step>, v: Value, node: Option<FieldDef>, elem: Option<nat>)
    returns (locs: seq<seq<Turn>>)
    requires !IsContainer(v) && |path| <= MAX_FIELD_PATH_DEPTH
    ensures OnePerPlace(LeafRows(fmt, path, v, node, elem), Leaf(fmt, path, elem, v, node), locs)
  {
    var owner, rows := LeafRows(fmt, path, v, node, elem), Leaf(fmt, path, elem, v, node);
    locs := if rows == [] then [] else [[]];
    assert path + [] == path;
    assert forall i: nat :: i < |rows| ==> OwnedAt(owner, rows, locs, i);
    forall loc
      ensures Complete(owner, locs, loc)
    {
      if r :| owner(loc, r) { ScalarAt(v, loc); }
    }
  }

  lemma {:induction false} PlacesOfItems(
      fmt: Formats, path: seq<Step>, v: Value, node: Option<FieldDef>, elem: Option<nat>, n: nat)
    returns (locs: seq<seq<Turn>>)
    requires v.Arr? && n <= |v.items| && |path| <= MAX_FIELD_PATH_DEPTH
    ensures Placed(LeafRows(fmt, path, v, node, elem), ItemRows(fmt, path, v, node, elem, n), locs, Indices(n))
    decreases v, 1, n
  {
    hide Placed, OnePerPlace, IsLeafRow, ItemRow, LeafRows;
    var owner := LeafRows(fmt, path, v, node, elem);
    if n == 0 {
      locs := [];
      NonePlaced(owner, Indices(0));
    } else {
      var before := PlacesOfItems(fmt, path, v, node, elem, n - 1);
      var last := PlacesOfItem(fmt, path, v, node, elem, n - 1);
      PlacedJoin(owner, ItemRows(fmt, path, v, node, elem, n - 1), before, Indices(n - 1),
                 ItemRow(fmt, path, v, node, elem, n - 1), last, {Index(n - 1)});
      assert Indices(n - 1) + {Index(n - 1)} == Indices(n);
      locs := before + last;
    }
  }

  lemma {:induction false} PlacesOfItem(
      fmt: Formats, path: seq<Step>, v: Value, node: Option<FieldDef>, elem: Option<nat>, i: nat)
    returns (locs: seq<seq<Turn>>)
    requires v.Arr? && i < |v.items| && |path| <= MAX_FIELD_PATH_DEPTH
    ensures Placed(LeafRows(fmt, path, v, node, elem), ItemRow(fmt, path, v, node, elem, i), locs, {Index(i)})
    decreases v, 0, 0
  {
    hide Placed, OnePerPlace, IsLeafRow;
    var item, owner := v.items[i], LeafRows(fmt, path, v, node, elem);
    AtItem(v, i);
    if !IsContainer(item) {
      var places := PlaceOfScalar(fmt, path, item, ElementNode(node), elem);
      RowsUnder(fmt, path, v, node, elem, Index(i), Leaf(fmt, path, elem, item, ElementNode(node)), places);
      locs := Beneath(Index(i), places);
    } else if |path| >= MAX_FIELD_PATH_DEPTH {
      forall loc, r | owner(loc, r)
        ensures !StartsIn(loc, {Index(i)})
      {
        NoneBeyond(fmt, path, v, node, elem, loc, r);
      }
      NonePlaced(owner, {Index(i)});
      locs := [];
    } else {
      var places := PlacesOf(fmt, path + [Each], item, ElementNode(node), Within(elem, Some(i)));
      RowsUnder(fmt, path, v, node, elem, Index(i), ItemRow(fmt, path, v, node, elem, i), places);
      locs := Beneath(Index(i), places);
    }
  }

  lemma AtItem(v: Value, i: nat)
    requires v.Arr? && i < |v.items|
    ensures At(v, [Index(i)]) == Some(v.items[i])
  {
    var loc: seq<Turn> := [Index(i)];
    assert loc[1..] == [];
  }

  lemma AtField(v: Value, k: string)
    requires v.Obj? && k in v.fields
    ensures At(v, [Key(k)]) == Some(v.fields[k])
  {
    var loc: seq<Turn> := [Key(k)];
    assert loc[1..] == [];
  }

  lemma {:induction false} PlacesOfKeys(
      fmt: Formats, path: seq<Step>, v: Value, node: Option<FieldDef>, elem: Option<nat>, keys: seq<string>)
    returns (locs: seq<seq<Turn>>)
    requires v.Obj? && |path| < MAX_FIELD_PATH_DEPTH && forall i :: 0 <= i < |keys| ==> keys[i] in v.fields
    requires forall i, j :: 0 <= i < j < |keys| ==> keys[i] != keys[j]
    ensures Placed(LeafRows(fmt, path, v, node, elem), KeyRows(fmt, path, v, node, elem, keys), locs, Names(keys))
    decreases v, 1, |keys|
  {
    hide Placed, OnePerPlace, IsLeafRow, LeafRows, Rows;
    var owner := LeafRows(fmt, path, v, node, elem);
    if keys == [] {
      locs := [];
      NonePlaced(owner, Names(keys));
    } else {
      var n := |keys| - 1;
      var key := keys[n];
      assert keys == keys[..n] + [key] && key !in keys[..n];
      AtField(v, key);
      var before := PlacesOfKeys(fmt, path, v, node, elem, keys[..n]);
      var places := PlacesOf(fmt, path + [Name(key)], v.fields[key], Child(node, key), elem);
      var rows := Rows(fmt, path + [Name(key)], v.fields[key], Child(node, key), elem);
      RowsUnder(fmt, path, v, node, elem, Key(key), rows, places);
      PlacedJoin(owner, KeyRows(fmt, path, v, node, elem, keys[..n]), before, Names(keys[..n]),
                 rows, Beneath(Key(key), places), {Key(key)});
      assert Names(keys[..n]) + {Key(key)} == Names(keys);
      locs := before + Beneath(Key(key), places);
    }
  }

  lemma KeysAreFields<V>(fields: map<string, V>)
    ensures forall k :: k in KeysOf(fields) <==> k in fields
    ensures forall i, j :: 0 <= i < j < |KeysOf(fields)| ==> KeysOf(fields)[i] != KeysOf(fields)[j]
  {
    TextOrder();
    SortedElements(fields.Keys, TextLe);
    forall i, j | 0 <= i < j < |KeysOf(fields)|
      ensures KeysOf(fields)[i] != KeysOf(fields)[j]
    {
      SortedAscends(fields.Keys, TextLe, i, j);
    }
  }

  /** The rows of any value: the scalars within the depth limit own one each, with the path, element,
      text and number of their place, and there are no others. */
  lemma RowsAreLeaves(fmt: Formats, path: seq<Step>, v: Value, node: Option<FieldDef>, elem: Option<nat>)
    requires |path| <= MAX_FIELD_PATH_DEPTH
    ensures exists locs :: OnePerPlace(LeafRows(fmt, path, v, node, elem), Rows(fmt, path, v, node, elem), locs)
  {
    var locs := PlacesOf(fmt, path, v, node, elem);
  }

  lemma RowHasLeaf(fmt: Formats, path: seq<Step>, v: Value, node: Option<FieldDef>, elem: Option<nat>, r: Row)
    returns (loc: seq<Turn>)
    requires |path| <= MAX_FIELD_PATH_DEPTH && r in Rows(fmt, path, v, node, elem)
    ensures IsLeafRow(fmt, path, v, node, elem, loc, r)
  {
    hide Rows, IsLeafRow;
    var rows := Rows(fmt, path, v, node, elem);
    var locs := PlacesOf(fmt, path, v, node, elem);
    var i: nat :| i < |rows| && rows[i] == r;
    assert OwnedAt(LeafRows(fmt, path, v, node, elem), rows, locs, i);
    loc := locs[i];
  }

  // ---- of a document ----

  function NodeAt(schema: map<string, FieldDef>, key: string): Option<FieldDef> {
    if key in schema then Some(schema[key]) else None
  }

  lemma {:induction false} InTopRows(
      fmt: Formats, doc: map<string, Value>, schema: map<string, FieldDef>, keys: seq<string>, r: Row)
    requires forall i :: 0 <= i < |keys| ==> keys[i] in doc
    ensures r in TopRows(fmt, doc, schema, keys) <==> exists k :: k in keys && r in TopRow(fmt, doc, schema, k)
  {
    hide TopRow;
    if keys != [] {
      var n := |keys| - 1;
      InTopRows(fmt, doc, schema, keys[..n], r);
      assert keys == keys[..n] + [keys[n]];
    }
  }

  predicate IsDocumentLeaf(
      fmt: Formats, doc: map<string, Value>, schema: map<string, FieldDef>, loc: seq<Turn>, r: Row) {
    && loc != [] && loc[0].Key? && loc[0].key in doc && loc[0].key != "title" && loc[0].key != "description"
    && IsLeafRow(fmt, [Name(loc[0].key)], doc[loc[0].key], NodeAt(schema, loc[0].key), None, loc[1..], r)
  }

  function DocumentLeafRows(fmt: Formats, doc: map<string, Value>, schema: map<string, FieldDef>): Owner {
    (loc: seq<Turn>, r: Row) => IsDocumentLeaf(fmt, doc, schema, loc, r)
  }

  lemma {:induction false} PlacesOfTop(
      fmt: Formats, doc: map<string, Value>, schema: map<string, FieldDef>, keys: seq<string>)
    returns (locs: seq<seq<Turn>>)
    requires forall i :: 0 <= i < |keys| ==> keys[i] in doc
    requires forall i, j :: 0 <= i < j < |keys| ==> keys[i] != keys[j]
    ensures Placed(DocumentLeafRows(fmt, doc, schema), TopRows(fmt, doc, schema, keys), locs, Names(keys))
  {
    hide Placed, OnePerPlace, IsDocumentLeaf, TopRow, DocumentLeafRows;
    var owner := DocumentLeafRows(fmt, doc, schema);
    if keys == [] {
      locs := [];
      NonePlaced(owner, Names(keys));
    } else {
      var n := |keys| - 1;
      var key := keys[n];
      assert keys == keys[..n] + [key] && key !in keys[..n];
      var before := PlacesOfTop(fmt, doc, schema, keys[..n]);
      var last := PlacesOfField(fmt, doc, schema, key);
      PlacedJoin(owner, TopRows(fmt, doc, schema, keys[..n]), before, Names(keys[..n]),
                 TopRow(fmt, doc, schema, key), last, {Key(key)});
      assert Names(keys[..n]) + {Key(key)} == Names(keys);
      locs := before + last;
    }
  }

  lemma PlacesOfField(fmt: Formats, doc: map<string, Value>, schema: map<string, FieldDef>, key: string)
    returns (locs: seq<seq<Turn>>)
    requires key in doc
    ensures Placed(DocumentLeafRows(fmt, doc, schema), TopRow(fmt, doc, schema, key), locs, {Key(key)})
  {
    hide Placed, OnePerPlace, IsLeafRow, Rows;
    var owner := DocumentLeafRows(fmt, doc, schema);
    if Promoted(key) {
      locs := [];
      NonePlaced(owner, {Key(key)});
    } else {
      var inner := LeafRows(fmt, [Name(key)], doc[key], NodeAt(schema, key), None);
      var places := PlacesOf(fmt, [Name(key)], doc[key], NodeAt(schema, key), None);
      assert forall rest, r :: ([Key(key)] + rest)[1..] == rest && (owner([Key(key)] + rest, r) <==> inner(rest, r));
      PlacedUnder(owner, inner, Key(key), TopRow(fmt, doc, schema, key), places);
      locs := Beneath(Key(key), places);
    }
  }

  /** A document's rows: its non-null scalars within the depth limit, other than the title and
      description, own one each, and there are no others; no row's path is longer than the limit. */
  lemma DocumentRowsAreLeaves(fmt: Formats, doc: map<string, Value>, schema: map<string, FieldDef>)
    ensures var rows := DocumentRows(fmt, doc, schema);
      && (exists locs :: OnePerPlace(DocumentLeafRows(fmt, doc, schema), rows, locs))
      && (forall r :: r in rows ==> |r.path| <= MAX_FIELD_PATH_DEPTH)
  {
    hide Placed, OnePerPlace, IsLeafRow, TopRows;
    var owner, rows := DocumentLeafRows(fmt, doc, schema), DocumentRows(fmt, doc, schema);
    TopKeysOrdered(doc);
    var locs := PlacesOfTop(fmt, doc, schema, TopKeys(doc));
    PlacedWhole(owner, rows, locs, Names(TopKeys(doc)));
    forall r | r in rows
      ensures |r.path| <= MAX_FIELD_PATH_DEPTH
    {
      var loc := DocumentRowHasLeaf(fmt, doc, schema, r);
    }
  }

  lemma DocumentRowHasLeaf(fmt: Formats, doc: map<string, Value>, schema: map<string, FieldDef>, r: Row)
    returns (loc: seq<Turn>)
    requires r in DocumentRows(fmt, doc, schema)
    ensures IsDocumentLeaf(fmt, doc, schema, loc, r) && |r.path| <= MAX_FIELD_PATH_DEPTH
  {
    hide Rows;
    InTopRows(fmt, doc, schema, TopKeys(doc), r);
    var k :| k in TopKeys(doc) && r in TopRow(fmt, doc, schema, k);
    var rest := RowHasLeaf(fmt, [Name(k)], doc[k], NodeAt(schema, k), None, r);
    loc := [Key(k)] + rest;
    assert loc[1..] == rest;
  }
}
