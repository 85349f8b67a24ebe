/** Correlated filters (src/document_fields.rs): grouping a document's rows by element asks the same
    question as looking at each element of the nested list. */
module Elements {
  import opened Options
  import opened Ordering
  import opened Frontmatter
  import opened Projection
  import opened ProjectionLaws

  /** The rows at or below `p` that belong to element `e`. */
  function Under(rows: seq<Row>, p: seq<Step>, e: nat): seq<Row> {
    if rows == [] then [] else
    var r := rows[|rows| - 1];
    Under(rows[..|rows| - 1], p, e) + (if p <= r.path && r.elem == e then [r] else [])
  }

  lemma {:induction false} UnderAppend(a: seq<Row>, b: seq<Row>, p: seq<Step>, e: nat)
    ensures Under(a + b, p, e) == Under(a, p, e) + Under(b, p, e)
  {
    if b == [] {
      assert a + b == a;
    } else {
      var n := |b| - 1;
      UnderAppend(a, b[..n], p, e);
      assert (a + b)[..|a + b| - 1] == a + b[..n];
    }
  }

  predicate RowUnder(r: Row, p: seq<Step>, e: nat) { p <= r.path && r.elem == e }

  lemma {:induction false} UnderAll(rows: seq<Row>, p: seq<Step>, e: nat)
    requires forall r :: r in rows ==> RowUnder(r, p, e)
    ensures Under(rows, p, e) == rows
  {
    if rows != [] {
      var n := |rows| - 1;
      assert rows == rows[..n] + [rows[n]] && RowUnder(rows[n], p, e);
      UnderAll(rows[..n], p, e);
    }
  }

  lemma {:induction false} UnderNone(rows: seq<Row>, p: seq<Step>, e: nat)
    requires forall r :: r in rows ==> !RowUnder(r, p, e)
    ensures Under(rows, p, e) == []
  {
    if rows != [] {
      var n := |rows| - 1;
      assert rows[n] in rows && !RowUnder(rows[n], p, e);
      UnderNone(rows[..n], p, e);
    }
  }

  lemma {:induction false} InUnder(rows: seq<Row>, p: seq<Step>, e: nat, r: Row)
    ensures r in Under(rows, p, e) <==> r in rows && RowUnder(r, p, e)
  {
    if rows != [] {
      var n := |rows| - 1;
      assert rows == rows[..n] + [rows[n]];
      InUnder(rows[..n], p, e, r);
    }
  }

  // ---- where rows are ----

  lemma RowsBelow(fmt: Formats, path: seq<Step>, v: Value, node: Option<FieldDef>, elem: Option<nat>, r: Row)
    requires |path| <= MAX_FIELD_PATH_DEPTH && r in Rows(fmt, path, v, node, elem)
    ensures path <= r.path && (elem.Some? ==> r.elem == elem.value)
  {
    hide Rows;
    var loc := RowHasLeaf(fmt, path, v, node, elem, r);
  }

  /** One element's part of a list's rows: its own projection if it is a container, and nothing of
      any other element. */
  lemma ItemPart(fmt: Formats, path: seq<Step>, v: Value, node: Option<FieldDef>, i: nat, e: nat)
    requires v.Arr? && i < |v.items| && |path| < MAX_FIELD_PATH_DEPTH
    ensures Under(ItemRow(fmt, path, v, node, None, i), path + [Each], e)
            == if i == e && IsContainer(v.items[i])
               then Rows(fmt, path + [Each], v.items[i], ElementNode(node), Some(i)) else []
  {
    hide Rows, Under;
    var below, rows := path + [Each], ItemRow(fmt, path, v, node, None, i);
    if IsContainer(v.items[i]) {
      assert rows == Rows(fmt, below, v.items[i], ElementNode(node), Some(i));
      forall r | r in rows
        ensures below <= r.path && r.elem == i
      {
        RowsBelow(fmt, below, v.items[i], ElementNode(node), Some(i), r);
      }
      if i == e { UnderAll(rows, below, e); } else { UnderNone(rows, below, e); }
    } else {
      assert forall r :: r in rows ==> r.path == path;
      UnderNone(rows, below, e);
    }
  }

  lemma {:induction false} ListPart(fmt: Formats, path: seq<Step>, v: Value, node: Option<FieldDef>, n: nat, e: nat)
    requires v.Arr? && n <= |v.items| && |path| < MAX_FIELD_PATH_DEPTH
    ensures Under(ItemRows(fmt, path, v, node, None, n), path + [Each], e)
            == if e < n && IsContainer(v.items[e])
               then Rows(fmt, path + [Each], v.items[e], ElementNode(node), Some(e)) else []
  {
    hide Rows, ItemRow, Under;
    if n == 0 {
      UnderNothing(path + [Each], e);
    } else {
      ListPart(fmt, path, v, node, n - 1, e);
      ItemPart(fmt, path, v, node, n - 1, e);
      UnderAppend(ItemRows(fmt, path, v, node, None, n - 1), ItemRow(fmt, path, v, node, None, n - 1),
                  path + [Each], e);
    }
  }

  // ---- down through objects ----

  function Names(names: seq<string>): seq<Step> { seq(|names|, i requires 0 <= i < |names| => Name(names[i])) }

  /** The value some field names below `v`, objects only. */
  function Below(v: Value, names: seq<string>): Option<Value>
    decreases |names|
  {
    if names == [] then Some(v)
    else if v.Obj? && names[0] in v.fields then Below(v.fields[names[0]], names[1..])
    else None
  }

  function NodeBelow(node: Option<FieldDef>, names: seq<string>): Option<FieldDef>
    decreases |names|
  {
    if names == [] then node else NodeBelow(Child(node, names[0]), names[1..])
  }

  /** Rows of another field are not under this one. */
  lemma OtherField(
      fmt: Formats, path: seq<Step>, v: Value, node: Option<FieldDef>, k: string, key: string, p: seq<Step>, e: nat)
    requires k != key && |path| < MAX_FIELD_PATH_DEPTH && path + [Name(key)] <= p
    ensures Under(Rows(fmt, path + [Name(k)], v, node, None), p, e) == []
  {
    hide Rows, Under;
    forall r | r in Rows(fmt, path + [Name(k)], v, node, None)
      ensures !RowUnder(r, p, e)
    {
      RowsBelow(fmt, path + [Name(k)], v, node, None, r);
      assert r.path[|path|] == (path + [Name(k)])[|path|] == Name(k);
      assert p[|path|] == (path + [Name(key)])[|path|] == Name(key);
    }
    UnderNone(Rows(fmt, path + [Name(k)], v, node, None), p, e);
  }

  lemma {:induction false} FieldPart(
    fmt: Formats, path: seq<Step>, v: Value, node: Option<FieldDef>, keys: seq<string>, key: string, p: seq<Step>,
    e: nat)
    requires v.Obj? && forall i :: 0 <= i < |keys| ==> keys[i] in v.fields
    requires forall i, j :: 0 <= i < j < |keys| ==> keys[i] != keys[j]
    requires key in v.fields && |path| < MAX_FIELD_PATH_DEPTH && path + [Name(key)] <= p
    ensures Under(KeyRows(fmt, path, v, node, None, keys), p, e)
            == if key in keys
               then Under(Rows(fmt, path + [Name(key)], v.fields[key], Child(node, key), None), p, e) else []
  {
    hide Rows, Under;
    if keys == [] {
      UnderNothing(p, e);
    } else {
      var n := |keys| - 1;
      var front, k := keys[..n], keys[n];
      FieldPart(fmt, path, v, node, front, key, p, e);
      UnderAppend(KeyRows(fmt, path, v, node, None, front),
                  Rows(fmt, path + [Name(k)], v.fields[k], Child(node, k), None), p, e);
      assert keys == front + [k];
      if k != key { OtherField(fmt, path, v.fields[k], Child(node, k), k, key, p, e); }
    }
  }

  /** The rows of the list some names below, element by element. */
  lemma {:induction false} NestedPart(
    fmt: Formats, path: seq<Step>, v: Value, node: Option<FieldDef>, names: seq<string>, e: nat)
    requires |path| + |names| < MAX_FIELD_PATH_DEPTH
    requires Below(v, names).Some? && Below(v, names).value.Arr?
    ensures var list := Below(v, names).value;
      Under(Rows(fmt, path, v, node, None), path + Names(names) + [Each], e)
      == if e < |list.items| && IsContainer(list.items[e])
         then Rows(fmt, path + Names(names) + [Each], list.items[e], ElementNode(NodeBelow(node, names)), Some(e))
         else []
    decreases |names|
  {
    hide Under, ItemRows, KeyRows;
    if names == [] {
      assert path + Names(names) + [Each] == path + [Each];
      ListPart(fmt, path, v, node, |v.items|, e);
    } else {
      var key, rest := names[0], names[1..];
      var p := path + Names(names) + [Each];
      assert p == (path + [Name(key)]) + Names(rest) + [Each];
      KeysAreFields(v.fields);
      FieldPart(fmt, path, v, node, KeysOf(v.fields), key, p, e);
      NestedPart(fmt, path + [Name(key)], v.fields[key], Child(node, key), rest, e);
    }
  }

  lemma UnderNothing(p: seq<Step>, e: nat)
    ensures Under([], p, e) == []
  {
  }

  lemma OtherTop(
      fmt: Formats, doc: map<string, Value>, schema: map<string, FieldDef>, k: string, key: string, p: seq<Step>,
      e: nat)
    requires k in doc && k != key && [Name(key)] <= p
    ensures Under(TopRow(fmt, doc, schema, k), p, e) == []
  {
    hide Rows, Under;
    UnderNothing(p, e);
    if !Promoted(k) {
      assert [] + [Name(k)] == [Name(k)] && [] + [Name(key)] == [Name(key)];
      OtherField(fmt, [], doc[k], NodeAt(schema, k), k, key, p, e);
    }
  }

  lemma {:induction false} TopPart(
    fmt: Formats, doc: map<string, Value>, schema: map<string, FieldDef>, keys: seq<string>, key: string,
    p: seq<Step>, e: nat)
    requires forall i :: 0 <= i < |keys| ==> keys[i] in doc
    requires forall i, j :: 0 <= i < j < |keys| ==> keys[i] != keys[j]
    requires key in doc && [Name(key)] <= p
    ensures Under(TopRows(fmt, doc, schema, keys), p, e)
            == if key in keys then Under(TopRow(fmt, doc, schema, key), p, e) else []
  {
    hide TopRow, Under;
    if keys == [] {
      UnderNothing(p, e);
    } else {
      var n := |keys| - 1;
      var front, k := keys[..n], keys[n];
      TopPart(fmt, doc, schema, front, key, p, e);
      UnderAppend(TopRows(fmt, doc, schema, front), TopRow(fmt, doc, schema, k), p, e);
      assert keys == front + [k];
      if k != key { OtherTop(fmt, doc, schema, k, key, p, e); }
    }
  }

  // ---- the document against its elements ----

  /** `list` is the list that some field names lead to from the top, objects only. */
  ghost predicate ListAt(doc: map<string, Value>, names: seq<string>, list: Value) {
    && names != [] && names[0] in doc && !Promoted(names[0]) && |names| < MAX_FIELD_PATH_DEPTH
    && list.Arr? && Below(doc[names[0]], names[1..]) == Some(list)
  }

  function ElementPath(names: seq<string>): seq<Step> { Names(names) + [Each] }

  /** The projection of element `e` of a list, by itself. */
  function ElementRows(fmt: Formats, schema: map<string, FieldDef>, names: seq<string>, list: Value, e: nat): seq<Row>
    requires names != [] && list.Arr? && e < |list.items|
  {
    Rows(fmt, ElementPath(names), list.items[e], ElementNode(NodeBelow(NodeAt(schema, names[0]), names[1..])), Some(e))
  }

  /** The document's rows under `list[]` with element `e` are exactly the projection of element
      `e`: in order, lists nested inside it included, and none if it is no container. */
  lemma ElementAgreement(
    fmt: Formats, doc: map<string, Value>, schema: map<string, FieldDef>, names: seq<string>, list: Value, e: nat)
    requires ListAt(doc, names, list)
    ensures Under(DocumentRows(fmt, doc, schema), ElementPath(names), e)
            == if e < |list.items| && IsContainer(list.items[e]) then ElementRows(fmt, schema, names, list, e) else []
  {
    hide Rows, Under, TopRows;
    var key, rest := names[0], names[1..];
    TopKeysOrdered(doc);
    assert ElementPath(names) == [Name(key)] + Names(rest) + [Each];
    TopPart(fmt, doc, schema, TopKeys(doc), key, ElementPath(names), e);
    NestedPart(fmt, [Name(key)], doc[key], NodeAt(schema, key), rest, e);
  }

  /** A condition on a field of an element: its path below the element and a test. */
  datatype Condition = Condition(suffix: seq<Step>, test: (string, Option<real>) -> bool)

  /** Some row of the element meets the condition. */
  ghost predicate MeetsOne(rows: seq<Row>, p: seq<Step>, c: Condition) {
    exists r :: r in rows && r.path == p + c.suffix && c.test(r.text, r.num)
  }

  ghost predicate MeetsAll(rows: seq<Row>, p: seq<Step>, conds: seq<Condition>) {
    forall i :: 0 <= i < |conds| ==> MeetsOne(rows, p, conds[i])
  }

  /** The same, asked of all rows with the element given. */
  ghost predicate GroupMeetsOne(rows: seq<Row>, p: seq<Step>, e: nat, c: Condition) {
    exists r :: r in rows && r.elem == e && r.path == p + c.suffix && c.test(r.text, r.num)
  }

  ghost predicate GroupMeetsAll(rows: seq<Row>, p: seq<Step>, e: nat, conds: seq<Condition>) {
    forall i :: 0 <= i < |conds| ==> GroupMeetsOne(rows, p, e, conds[i])
  }

  lemma GroupIsUnder(rows: seq<Row>, p: seq<Step>, e: nat, c: Condition)
    ensures GroupMeetsOne(rows, p, e, c) <==> MeetsOne(Under(rows, p, e), p, c)
  {
    hide Under;
    if r :| r in rows && r.elem == e && r.path == p + c.suffix && c.test(r.text, r.num) {
      InUnder(rows, p, e, r);
      assert p <= r.path;
    }
    if r :| r in Under(rows, p, e) && r.path == p + c.suffix && c.test(r.text, r.num) { InUnder(rows, p, e, r); }
  }

  /** "Some element meets every condition" has the same answer over the nested list and over the
      document's rows grouped by element. */
  lemma CorrelatedFilter(
    fmt: Formats, doc: map<string, Value>, schema: map<string, FieldDef>, names: seq<string>, list: Value,
    conds: seq<Condition>)
    requires ListAt(doc, names, list) && conds != []
    ensures (exists e: nat :: GroupMeetsAll(DocumentRows(fmt, doc, schema), ElementPath(names), e, conds))
      <==> (exists e: nat :: e < |list.items| && IsContainer(list.items[e])
                             && MeetsAll(ElementRows(fmt, schema, names, list, e), ElementPath(names), conds))
  {
    hide Under, DocumentRows, ElementRows, ElementPath, ListAt, MeetsOne, GroupMeetsOne;
    var rows, p := DocumentRows(fmt, doc, schema), ElementPath(names);
    ListIsList(doc, names, list);
    forall e: nat
      ensures GroupMeetsAll(rows, p, e, conds)
              <==> e < |list.items| && IsContainer(list.items[e])
                   && MeetsAll(ElementRows(fmt, schema, names, list, e), p, conds)
    {
      ElementAgreement(fmt, doc, schema, names, list, e);
      GroupIsUnderAll(rows, p, e, conds);
      NothingMeets(p, conds[0]);
    }
  }

  lemma ListIsList(doc: map<string, Value>, names: seq<string>, list: Value)
    requires ListAt(doc, names, list)
    ensures list.Arr? && names != []
  {
  }

  lemma GroupIsUnderAll(rows: seq<Row>, p: seq<Step>, e: nat, conds: seq<Condition>)
    ensures GroupMeetsAll(rows, p, e, conds) <==> MeetsAll(Under(rows, p, e), p, conds)
  {
    hide Under, MeetsOne, GroupMeetsOne;
    forall i | 0 <= i < |conds|
      ensures GroupMeetsOne(rows, p, e, conds[i]) <==> MeetsOne(Under(rows, p, e), p, conds[i])
    {
      GroupIsUnder(rows, p, e, conds[i]);
    }
  }

  lemma NothingMeets(p: seq<Step>, c: Condition)
    ensures !MeetsOne([], p, c)
  {
  }
}
