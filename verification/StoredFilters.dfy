/** Filters over the stored rows, where a path is text (src/document_fields.rs). */
module StoredFilters {
  import opened Frontmatter
  import opened Projection
  import opened ProjectionLaws
  import opened Elements
  import opened Flattening

  /** No field name anywhere in the value contains a path separator. */
  predicate PlainValue(v: Value) {
    match v
    case Arr(items) => forall i :: 0 <= i < |items| ==> PlainValue(items[i])
    case Obj(fields) => forall k :: k in fields ==> PlainName(k) && PlainValue(fields[k])
    case _ => true
  }

  predicate PlainDocument(doc: map<string, Value>) { forall k :: k in doc ==> PlainName(k) && PlainValue(doc[k]) }

  predicate PlainSteps(path: seq<Step>) { forall i :: 0 <= i < |path| ==> PlainStep(path[i]) }

  lemma {:induction false} PathOfPlain(v: Value, loc: seq<Turn>)
    requires PlainValue(v) && At(v, loc).Some?
    ensures PlainSteps(PathOf(v, loc))
    decreases |loc|
  {
    if loc != [] {
      match loc[0]
      case Key(k) => PathOfPlain(v.fields[k], loc[1..]);
      case Index(i) => PathOfPlain(v.items[i], loc[1..]);
    }
  }

  lemma RowsPlain(fmt: Formats, doc: map<string, Value>, schema: map<string, FieldDef>, r: Row)
    requires PlainDocument(doc) && r in DocumentRows(fmt, doc, schema)
    ensures PlainPath(r.path)
  {
    hide DocumentRows, PlainValue;
    var loc := DocumentRowHasLeaf(fmt, doc, schema, r);
    var k, rest := loc[0].key, loc[1..];
    PathOfPlain(doc[k], rest);
    assert r.path == [Name(k)] + PathOf(doc[k], rest);
  }

  /** What a filter names: a field of the list's elements, as text, and a test. */
  function FieldText(names: seq<string>, c: Condition): string { Render(ElementPath(names) + c.suffix) }

  ghost predicate StoredMeetsOne(rows: seq<FieldRow>, names: seq<string>, e: nat, c: Condition) {
    exists r :: r in rows && r.elem == e && r.field == FieldText(names, c) && c.test(r.text, r.num)
  }

  ghost predicate StoredMeetsAll(rows: seq<FieldRow>, names: seq<string>, e: nat, conds: seq<Condition>) {
    forall i :: 0 <= i < |conds| ==> StoredMeetsOne(rows, names, e, conds[i])
  }

  predicate PlainQuery(names: seq<string>, conds: seq<Condition>) {
    && names != [] && (forall i :: 0 <= i < |names| ==> PlainName(names[i]))
    && (forall i :: 0 <= i < |conds| ==> PlainSteps(conds[i].suffix))
  }

  lemma QueryPathPlain(names: seq<string>, c: Condition)
    requires names != [] && (forall i :: 0 <= i < |names| ==> PlainName(names[i])) && PlainSteps(c.suffix)
    ensures PlainPath(ElementPath(names) + c.suffix)
  {
  }

  lemma StoredIsGroup(rows: seq<Row>, names: seq<string>, e: nat, c: Condition)
    requires forall r :: r in rows ==> PlainPath(r.path)
    requires names != [] && (forall i :: 0 <= i < |names| ==> PlainName(names[i])) && PlainSteps(c.suffix)
    ensures StoredMeetsOne(Stored(rows), names, e, c) <==> GroupMeetsOne(rows, ElementPath(names), e, c)
  {
    hide Render, ElementPath, PlainPath;
    var p := ElementPath(names) + c.suffix;
    QueryPathPlain(names, c);
    if r :| r in rows && r.elem == e && r.path == p && c.test(r.text, r.num) {
      var i :| 0 <= i < |rows| && rows[i] == r;
      assert Stored(rows)[i] == StoredRow(r);
      assert StoredRow(r) in Stored(rows);
    }
    if s :| s in Stored(rows) && s.elem == e && s.field == FieldText(names, c) && c.test(s.text, s.num) {
      var i :| 0 <= i < |rows| && Stored(rows)[i] == s;
      assert rows[i] in rows;
      RenderInjective(rows[i].path, p);
    }
  }

  /** Below the row cap and with plain names, asking the stored rows of one element is asking the
      element of the nested list. */
  lemma StoredFilterAgrees(
    fmt: Formats, doc: map<string, Value>, schema: map<string, FieldDef>, names: seq<string>, list: Value,
    conds: seq<Condition>)
    requires ListAt(doc, names, list) && conds != [] && PlainDocument(doc) && PlainQuery(names, conds)
    requires |DocumentRows(fmt, doc, schema)| <= MAX_PROJECTED_ROWS
    ensures var rows := Capped(Stored(DocumentRows(fmt, doc, schema)));
      (exists e: nat :: StoredMeetsAll(rows, names, e, conds))
      <==> (exists e: nat :: e < |list.items| && IsContainer(list.items[e])
                             && MeetsAll(ElementRows(fmt, schema, names, list, e), ElementPath(names), conds))
  {
    hide DocumentRows, ElementRows, ElementPath, PlainDocument, PlainPath, PlainName, PlainSteps, StoredMeetsOne,
         GroupMeetsOne, MeetsOne;
    var rows := DocumentRows(fmt, doc, schema);
    forall r | r in rows
      ensures PlainPath(r.path)
    {
      RowsPlain(fmt, doc, schema, r);
    }
    forall e: nat
      ensures StoredMeetsAll(Stored(rows), names, e, conds) <==> GroupMeetsAll(rows, ElementPath(names), e, conds)
    {
      forall i | 0 <= i < |conds|
        ensures StoredMeetsOne(Stored(rows), names, e, conds[i])
                <==> GroupMeetsOne(rows, ElementPath(names), e, conds[i])
      {
        StoredIsGroup(rows, names, e, conds[i]);
      }
    }
    assert Capped(Stored(rows)) == Stored(rows);
    if e: nat :| GroupMeetsAll(rows, ElementPath(names), e, conds) {
      assert StoredMeetsAll(Stored(rows), names, e, conds);
    }
    CorrelatedFilter(fmt, doc, schema, names, list, conds);
  }
}
