/** The capped projection as it is computed (src/document_fields.rs): rows pushed onto one shared
    list while the document is walked. */
module Flattening {
  import opened Options
  import opened Frontmatter
  import opened Projection
  import opened ProjectionLaws

  const MAX_PROJECTED_ROWS := 2000

  /** A stored row: the path as text. */
  datatype FieldRow = FieldRow(field: string, elem: nat, text: string, num: Option<real>)

  function StoredRow(r: Row): FieldRow { FieldRow(Render(r.path), r.elem, r.text, r.num) }

  function Stored(rows: seq<Row>): seq<FieldRow> { seq(|rows|, i requires 0 <= i < |rows| => StoredRow(rows[i])) }

  lemma StoredAppend(a: seq<Row>, b: seq<Row>)
    ensures Stored(a + b) == Stored(a) + Stored(b)
  {
  }

  function Capped<T>(s: seq<T>): seq<T> { if |s| > MAX_PROJECTED_ROWS then s[..MAX_PROJECTED_ROWS] else s }

  /** Capping as one goes is capping at the end. */
  lemma CapStep(a: seq<FieldRow>, x: seq<Row>, y: seq<Row>)
    ensures Capped(Capped(a + Stored(x)) + Stored(y)) == Capped(a + Stored(x + y))
  {
    StoredAppend(x, y);
    assert (a + Stored(x)) + Stored(y) == a + (Stored(x) + Stored(y));
  }

  /** Once the list is full more rows change nothing. */
  lemma FullStays(a: seq<FieldRow>, x: seq<Row>, y: seq<Row>)
    requires |Capped(a + Stored(x))| >= MAX_PROJECTED_ROWS && x <= y
    ensures Capped(a + Stored(y)) == Capped(a + Stored(x))
  {
    assert y == x + y[|x|..];
    StoredAppend(x, y[|x|..]);
    assert (a + Stored(x)) + Stored(y[|x|..]) == a + Stored(y);
  }

  lemma CapNone(a: seq<FieldRow>)
    requires |a| <= MAX_PROJECTED_ROWS
    ensures Capped(a + Stored([])) == a
  {
  }

  lemma {:induction false} ItemsGrow(
      fmt: Formats, path: seq<Step>, v: Value, node: Option<FieldDef>, elem: Option<nat>, i: nat, n: nat)
    requires v.Arr? && i <= n <= |v.items|
    ensures ItemRows(fmt, path, v, node, elem, i) <= ItemRows(fmt, path, v, node, elem, n)
  {
    hide ItemRow;
    if i < n { ItemsGrow(fmt, path, v, node, elem, i, n - 1); }
  }

  lemma {:induction false} KeysGrow(
      fmt: Formats, path: seq<Step>, v: Value, node: Option<FieldDef>, elem: Option<nat>, keys: seq<string>, i: nat)
    requires v.Obj? && i <= |keys| && forall j :: 0 <= j < |keys| ==> keys[j] in v.fields
    ensures KeyRows(fmt, path, v, node, elem, keys[..i]) <= KeyRows(fmt, path, v, node, elem, keys)
    decreases |keys|
  {
    hide Rows;
    if i < |keys| {
      var n := |keys| - 1;
      assert keys[..n][..i] == keys[..i];
      KeysGrow(fmt, path, v, node, elem, keys[..n], i);
    } else {
      assert keys[..i] == keys;
    }
  }

  lemma NoKeys(fmt: Formats, path: seq<Step>, v: Value, node: Option<FieldDef>, elem: Option<nat>, keys: seq<string>)
    requires v.Obj? && forall j :: 0 <= j < |keys| ==> keys[j] in v.fields
    ensures KeyRows(fmt, path, v, node, elem, keys[..0]) == []
  {
  }

  lemma KeysStep(
      fmt: Formats, path: seq<Step>, v: Value, node: Option<FieldDef>, elem: Option<nat>, keys: seq<string>, i: nat)
    requires v.Obj? && i < |keys| && forall j :: 0 <= j < |keys| ==> keys[j] in v.fields
    ensures KeyRows(fmt, path, v, node, elem, keys[..i + 1])
            == KeyRows(fmt, path, v, node, elem, keys[..i])
               + Rows(fmt, path + [Name(keys[i])], v.fields[keys[i]], Child(node, keys[i]), elem)
  {
    hide Rows;
    assert keys[..i + 1][..i] == keys[..i];
  }

  /** The list the walk pushes onto. */
  class Sink {
    var rows: seq<FieldRow>

    ghost predicate Valid()
      reads this
    {
      |rows| <= MAX_PROJECTED_ROWS
    }

    constructor ()
      ensures Valid() && rows == []
    {
      rows := [];
    }

    predicate Full()
      reads this
    {
      |rows| >= MAX_PROJECTED_ROWS
    }

    /** One row for a scalar, none for null. */
    method PushLeaf(
        fmt: Formats, field: string, elem: Option<nat>, v: Value, node: Option<FieldDef>, ghost path: seq<Step>)
      requires Valid() && !Full() && field == Render(path)
      modifies this
      ensures Valid() && rows == Capped(old(rows) + Stored(Leaf(fmt, path, elem, v, node)))
    {
      match CanonicalText(fmt, v)
      case None =>
      case Some(text) => rows := rows + [FieldRow(field, ElemOr(elem), text, ScalarNumeric(fmt, node, v))];
    }
  }

  lemma RenderEach(path: seq<Step>)
    ensures Render(path + [Each]) == Render(path) + "[]"
  {
    assert (path + [Each])[..|path|] == path;
  }

  lemma RenderName(path: seq<Step>, n: string)
    requires path != []
    ensures Render(path + [Name(n)]) == Render(path) + "." + n
  {
    assert (path + [Name(n)])[..|path|] == path;
  }

  /** Project `v` at `field`: afterwards the list is what it was plus the value's rows, cut off at
      the row cap. */
  method FlattenValue(
    fmt: Formats, field: string, depth: nat, v: Value, node: Option<FieldDef>, elem: Option<nat>, out: Sink,
    ghost path: seq<Step>)
    requires out.Valid() && path != [] && field == Render(path) && depth == |path|
    modifies out
    ensures out.Valid() && out.rows == Capped(old(out.rows) + Stored(Rows(fmt, path, v, node, elem)))
    decreases v, 1
  {
    match v
    case Null =>
    case Arr(items) => FlattenItems(fmt, field, depth, v, node, elem, out, path);
    case Obj(fields) =>
      if out.Full() { return; }
      if depth >= MAX_FIELD_PATH_DEPTH { return; }
      FlattenFields(fmt, field, depth, v, node, elem, out, path);
    case _ =>
      if out.Full() { return; }
      out.PushLeaf(fmt, field, elem, v, node, path);
  }

  method FlattenItems(
    fmt: Formats, field: string, depth: nat, v: Value, node: Option<FieldDef>, elem: Option<nat>, out: Sink,
    ghost path: seq<Step>)
    requires v.Arr? && out.Valid() && path != [] && field == Render(path) && depth == |path|
    modifies out
    ensures out.Valid() && out.rows == Capped(old(out.rows) + Stored(ItemRows(fmt, path, v, node, elem, |v.items|)))
    decreases v, 0
  {
    hide Capped, Stored, Rows, Render, Leaf;
    CapNone(out.rows);
    var itemsNode := ElementNode(node);
    for i := 0 to |v.items|
      invariant out.Valid() && out.rows == Capped(old(out.rows) + Stored(ItemRows(fmt, path, v, node, elem, i)))
    {
      if out.Full() {
        ItemsGrow(fmt, path, v, node, elem, i, |v.items|);
        FullStays(old(out.rows), ItemRows(fmt, path, v, node, elem, i), ItemRows(fmt, path, v, node, elem, |v.items|));
        return;
      }
      CapStep(old(out.rows), ItemRows(fmt, path, v, node, elem, i), ItemRow(fmt, path, v, node, elem, i));
      CapNone(out.rows);
      var item := v.items[i];
      if IsContainer(item) {
        if depth >= MAX_FIELD_PATH_DEPTH { continue; }
        RenderEach(path);
        FlattenValue(fmt, field + "[]", depth + 1, item, itemsNode, if elem.Some? then elem else Some(i), out,
                     path + [Each]);
      } else {
        out.PushLeaf(fmt, field, elem, item, itemsNode, path);
      }
    }
  }

  method FlattenFields(
    fmt: Formats, field: string, depth: nat, v: Value, node: Option<FieldDef>, elem: Option<nat>, out: Sink,
    ghost path: seq<Step>)
    requires v.Obj? && out.Valid() && path != [] && field == Render(path) && depth == |path| < MAX_FIELD_PATH_DEPTH
    modifies out
    ensures out.Valid()
    ensures out.rows == Capped(old(out.rows) + Stored(KeyRows(fmt, path, v, node, elem, KeysOf(v.fields))))
    decreases v, 0
  {
    hide Capped, Stored, Rows, Render, KeysOf, KeyRows;
    var keys := KeysOf(v.fields);
    NoKeys(fmt, path, v, node, elem, keys);
    CapNone(out.rows);
    for i := 0 to |keys|
      invariant out.Valid() && out.rows == Capped(old(out.rows) + Stored(KeyRows(fmt, path, v, node, elem, keys[..i])))
    {
      if out.Full() {
        KeysGrow(fmt, path, v, node, elem, keys, i);
        FullStays(old(out.rows), KeyRows(fmt, path, v, node, elem, keys[..i]), KeyRows(fmt, path, v, node, elem, keys));
        return;
      }
      var key := keys[i];
      KeysStep(fmt, path, v, node, elem, keys, i);
      CapStep(old(out.rows), KeyRows(fmt, path, v, node, elem, keys[..i]),
              Rows(fmt, path + [Name(key)], v.fields[key], Child(node, key), elem));
      RenderName(path, key);
      FlattenValue(fmt, field + "." + key, depth + 1, v.fields[key], Child(node, key), elem, out, path + [Name(key)]);
    }
    assert keys[..|keys|] == keys;
  }

  lemma {:induction false} TopsGrow(
      fmt: Formats, doc: map<string, Value>, schema: map<string, FieldDef>, keys: seq<string>, i: nat)
    requires i <= |keys| && forall j :: 0 <= j < |keys| ==> keys[j] in doc
    ensures TopRows(fmt, doc, schema, keys[..i]) <= TopRows(fmt, doc, schema, keys)
    decreases |keys|
  {
    hide TopRow;
    if i < |keys| {
      var n := |keys| - 1;
      assert keys[..n][..i] == keys[..i];
      TopsGrow(fmt, doc, schema, keys[..n], i);
    } else {
      assert keys[..i] == keys;
    }
  }

  lemma TopStep(fmt: Formats, doc: map<string, Value>, schema: map<string, FieldDef>, keys: seq<string>, i: nat)
    requires i < |keys| && forall j :: 0 <= j < |keys| ==> keys[j] in doc
    ensures TopRows(fmt, doc, schema, keys[..i + 1])
            == TopRows(fmt, doc, schema, keys[..i]) + TopRow(fmt, doc, schema, keys[i])
  {
    hide TopRow;
    assert keys[..i + 1][..i] == keys[..i];
  }

  lemma NoTops(fmt: Formats, doc: map<string, Value>, schema: map<string, FieldDef>, keys: seq<string>)
    requires forall j :: 0 <= j < |keys| ==> keys[j] in doc
    ensures Capped([] + Stored(TopRows(fmt, doc, schema, keys[..0]))) == []
    ensures forall k: string :: Render([Name(k)]) == k
  {
  }

  /** A document's stored rows: the first rows of the uncapped projection, as many as the cap
      allows. The final truncation never removes a row. */
  method FlattenFrontmatter(fmt: Formats, doc: map<string, Value>, schema: map<string, FieldDef>)
    returns (rows: seq<FieldRow>)
    ensures rows == Capped(Stored(DocumentRows(fmt, doc, schema)))
  {
    hide Capped, Stored, Rows, Render, TopRows, TopRow, TopKeys;
    var out := new Sink();
    var keys := TopKeys(doc);
    NoTops(fmt, doc, schema, keys);
    CapNone(out.rows);
    for i := 0 to |keys|
      invariant out.Valid() && fresh(out)
      invariant out.rows == Capped([] + Stored(TopRows(fmt, doc, schema, keys[..i])))
    {
      var key := keys[i];
      TopStep(fmt, doc, schema, keys, i);
      CapStep([], TopRows(fmt, doc, schema, keys[..i]), TopRow(fmt, doc, schema, key));
      CapNone(out.rows);
      if Promoted(key) {
        PromotedHasNoRow(fmt, doc, schema, key);
        continue;
      }
      PlainTopRow(fmt, doc, schema, key);
      FlattenValue(fmt, key, 1, doc[key], NodeAt(schema, key), None, out, [Name(key)]);
      if out.Full() {
        TopsGrow(fmt, doc, schema, keys, i + 1);
        FullStays([], TopRows(fmt, doc, schema, keys[..i + 1]), TopRows(fmt, doc, schema, keys));
        ghost var before := out.rows;
        out.rows := out.rows[..MAX_PROJECTED_ROWS];
        assert out.rows == before;
        assert [] + Stored(TopRows(fmt, doc, schema, keys)) == Stored(DocumentRows(fmt, doc, schema));
        return out.rows;
      }
    }
    assert keys[..|keys|] == keys;
    assert [] + Stored(TopRows(fmt, doc, schema, keys)) == Stored(DocumentRows(fmt, doc, schema));
    rows := out.rows;
  }

  lemma PromotedHasNoRow(fmt: Formats, doc: map<string, Value>, schema: map<string, FieldDef>, key: string)
    requires key in doc && Promoted(key)
    ensures TopRow(fmt, doc, schema, key) == []
  {
  }

  lemma PlainTopRow(fmt: Formats, doc: map<string, Value>, schema: map<string, FieldDef>, key: string)
    requires key in doc && !Promoted(key)
    ensures TopRow(fmt, doc, schema, key) == Rows(fmt, [Name(key)], doc[key], NodeAt(schema, key), None)
  {
  }

  // ---- which fields the cap can cost ----

  /** How many of the first keys hold anything but a list of containers. */
  function PlainCount(doc: map<string, Value>, keys: seq<string>): (n: nat)
    requires forall j :: 0 <= j < |keys| ==> keys[j] in doc
    ensures n <= |keys| && forall j :: 0 <= j < n ==> !HoldsContainers(doc[keys[j]])
    ensures n < |keys| ==> HoldsContainers(doc[keys[n]])
  {
    if keys == [] then 0
    else if HoldsContainers(doc[keys[0]]) then 0
    else 1 + PlainCount(doc, keys[1..])
  }

  /** The rows of all fields that are no list of containers. */
  function PlainRows(fmt: Formats, doc: map<string, Value>, schema: map<string, FieldDef>): seq<Row> {
    var keys := TopKeys(doc);
    TopRows(fmt, doc, schema, keys[..PlainCount(doc, keys)])
  }

  /** However large the lists of objects are, they cannot push out another field: if the rows of
      the other fields fit under the cap, every one of them is stored. */
  lemma PlainFieldsNotStarved(fmt: Formats, doc: map<string, Value>, schema: map<string, FieldDef>, k: string, r: Row)
    requires k in doc && !HoldsContainers(doc[k]) && r in TopRow(fmt, doc, schema, k)
    requires |PlainRows(fmt, doc, schema)| <= MAX_PROJECTED_ROWS
    ensures StoredRow(r) in Capped(Stored(DocumentRows(fmt, doc, schema)))
  {
    hide TopRow, TopRows, TopKeys, HoldsContainers;
    var keys := TopKeys(doc);
    var n := PlainCount(doc, keys);
    TopKeysOrdered(doc);
    var j: nat :| j < |keys| && keys[j] == k;
    assert j < n;
    assert keys[..n][j] == k;
    InTopRows(fmt, doc, schema, keys[..n], r);
    TopsGrow(fmt, doc, schema, keys, n);
    var plain, all := PlainRows(fmt, doc, schema), DocumentRows(fmt, doc, schema);
    var i: nat :| i < |plain| && plain[i] == r;
    assert all[i] == r;
    assert Capped(Stored(all))[i] == StoredRow(r);
  }
}
