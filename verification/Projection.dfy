/** What the projection of a document's frontmatter is without the row cap (src/document_fields.rs),
    said on values with structured paths. */
module Projection {
  import opened Options
  import opened Ordering
  import opened Frontmatter

  const MAX_FIELD_PATH_DEPTH := 16

  datatype Step = Name(name: string) | Each

  datatype Row = Row(path: seq<Step>, elem: nat, text: string, num: Option<real>)

  function ElemOr(elem: Option<nat>): nat { if elem.Some? then elem.value else 0 }

  function Leaf(fmt: Formats, path: seq<Step>, elem: Option<nat>, v: Value, node: Option<FieldDef>): seq<Row> {
    match CanonicalText(fmt, v)
    case None => []
    case Some(text) => [Row(path, ElemOr(elem), text, ScalarNumeric(fmt, node, v))]
  }

  function KeysOf<V>(fields: map<string, V>): (keys: seq<string>)
    ensures forall i :: 0 <= i < |keys| ==> keys[i] in fields
  {
    TextOrder();
    SortedElements(fields.Keys, TextLe);
    Sorted(fields.Keys, TextLe)
  }

  function Child(node: Option<FieldDef>, key: string): Option<FieldDef> {
    if node.Some? && key in node.value.fields then Some(node.value.fields[key]) else None
  }

  /** The rows of a value at `path`, read under `node`, inside element `elem` of a list if any. */
  function Rows(fmt: Formats, path: seq<Step>, v: Value, node: Option<FieldDef>, elem: Option<nat>): seq<Row>
    decreases v, 2, 0
  {
    match v
    case Arr(items) => ItemRows(fmt, path, v, node, elem, |items|)
    case Obj(fields) =>
      if |path| >= MAX_FIELD_PATH_DEPTH then [] else KeyRows(fmt, path, v, node, elem, KeysOf(fields))
    case _ => Leaf(fmt, path, elem, v, node)
  }

  /** The rows of a list's first `n` elements. */
  function ItemRows(
      fmt: Formats, path: seq<Step>, v: Value, node: Option<FieldDef>, elem: Option<nat>, n: nat): seq<Row>
    requires v.Arr? && n <= |v.items|
    decreases v, 1, n
  {
    if n == 0 then [] else ItemRows(fmt, path, v, node, elem, n - 1) + ItemRow(fmt, path, v, node, elem, n - 1)
  }

  function ItemRow(fmt: Formats, path: seq<Step>, v: Value, node: Option<FieldDef>, elem: Option<nat>, i: nat): seq<Row>
    requires v.Arr? && i < |v.items|
    decreases v, 0, 0
  {
    var item := v.items[i];
    if !IsContainer(item) then Leaf(fmt, path, elem, item, ElementNode(node))
    else if |path| >= MAX_FIELD_PATH_DEPTH then []
    else Rows(fmt, path + [Each], item, ElementNode(node), if elem.Some? then elem else Some(i))
  }

  /** The rows of some of an object's fields. */
  function KeyRows(
      fmt: Formats, path: seq<Step>, v: Value, node: Option<FieldDef>, elem: Option<nat>, keys: seq<string>): seq<Row>
    requires v.Obj? && forall i :: 0 <= i < |keys| ==> keys[i] in v.fields
    decreases v, 1, |keys|
  {
    if keys == [] then [] else
    var key := keys[|keys| - 1];
    KeyRows(fmt, path, v, node, elem, keys[..|keys| - 1])
    + Rows(fmt, path + [Name(key)], v.fields[key], Child(node, key), elem)
  }

  // ---- the whole document ----

  predicate HoldsContainers(v: Value) { v.Arr? && exists i :: 0 <= i < |v.items| && IsContainer(v.items[i]) }

  type Flagged = (bool, string)

  predicate FlaggedLe(x: Flagged, y: Flagged) { (!x.0 && y.0) || (x.0 == y.0 && TextLe(x.1, y.1)) }

  lemma FlaggedOrder()
    ensures TotalOrder(FlaggedLe)
  {
    forall x: Flagged, y: Flagged
      ensures Total(FlaggedLe, x, y) && Antisymmetric(FlaggedLe, x, y)
    {
      TextTotal(x.1, y.1);
    }
    forall x: Flagged, y: Flagged, z: Flagged
      ensures Transitive(FlaggedLe, x, y, z)
    {
      if FlaggedLe(x, y) && FlaggedLe(y, z) && x.0 == z.0 { TextTransitive(x.1, y.1, z.1); }
    }
  }

  function FlaggedKeys(doc: map<string, Value>): set<Flagged> { set k | k in doc :: (HoldsContainers(doc[k]), k) }

  /** The document's keys in the order they are projected: by name, lists of containers last. */
  function TopKeys(doc: map<string, Value>): (keys: seq<string>)
    ensures forall i :: 0 <= i < |keys| ==> keys[i] in doc
  {
    FlaggedOrder();
    SortedElements(FlaggedKeys(doc), FlaggedLe);
    var flagged := Sorted(FlaggedKeys(doc), FlaggedLe);
    seq(|flagged|, i requires 0 <= i < |flagged| => flagged[i].1)
  }

  predicate Promoted(key: string) { key == "title" || key == "description" }

  function TopRows(fmt: Formats, doc: map<string, Value>, schema: map<string, FieldDef>, keys: seq<string>): seq<Row>
    requires forall i :: 0 <= i < |keys| ==> keys[i] in doc
  {
    if keys == [] then [] else
    TopRows(fmt, doc, schema, keys[..|keys| - 1]) + TopRow(fmt, doc, schema, keys[|keys| - 1])
  }

  function TopRow(fmt: Formats, doc: map<string, Value>, schema: map<string, FieldDef>, key: string): seq<Row>
    requires key in doc
  {
    if Promoted(key) then []
    else Rows(fmt, [Name(key)], doc[key], if key in schema then Some(schema[key]) else None, None)
  }

  function DocumentRows(fmt: Formats, doc: map<string, Value>, schema: map<string, FieldDef>): seq<Row> {
    TopRows(fmt, doc, schema, TopKeys(doc))
  }

  /** Every key comes up once, and no list of containers comes before another kind of field. */
  lemma TopKeysOrdered(doc: map<string, Value>)
    ensures forall k :: k in TopKeys(doc) <==> k in doc
    ensures var keys := TopKeys(doc);
      forall i, j :: 0 <= i < j < |keys| ==>
          keys[i] != keys[j] && (HoldsContainers(doc[keys[i]]) ==> HoldsContainers(doc[keys[j]]))
  {
    FlaggedOrder();
    var flagged, keys := Sorted(FlaggedKeys(doc), FlaggedLe), TopKeys(doc);
    SortedElements(FlaggedKeys(doc), FlaggedLe);
    forall k | k in doc
      ensures k in keys
    {
      assert (HoldsContainers(doc[k]), k) in flagged;
      var i :| 0 <= i < |flagged| && flagged[i] == (HoldsContainers(doc[k]), k);
      assert keys[i] == k;
    }
    forall i, j | 0 <= i < j < |keys|
      ensures keys[i] != keys[j] && (HoldsContainers(doc[keys[i]]) ==> HoldsContainers(doc[keys[j]]))
    {
      assert flagged[i] in FlaggedKeys(doc) && flagged[j] in FlaggedKeys(doc);
      SortedAscends(FlaggedKeys(doc), FlaggedLe, i, j);
    }
  }

  // ---- paths as text ----

  function Render(path: seq<Step>): string {
    if path == [] then "" else
    match path[|path| - 1]
    case Each => Render(path[..|path| - 1]) + "[]"
    case Name(n) => if |path| == 1 then n else Render(path[..|path| - 1]) + "." + n
  }

  /** A field name without the characters that separate path steps. */
  predicate PlainName(n: string) { '.' !in n && '[' !in n && ']' !in n }

  predicate PlainStep(s: Step) { s.Name? ==> PlainName(s.name) }

  /** Every projected path starts with a name. */
  predicate PlainPath(path: seq<Step>) {
    path != [] && path[0].Name? && forall i :: 0 <= i < |path| ==> PlainStep(path[i])
  }

  lemma NoDotAfter(a: string, n: string)
    requires '.' !in n
    ensures forall k :: |a| < k < |a + "." + n| ==> (a + "." + n)[k] != '.'
  {
    forall k | |a| < k < |a + "." + n|
      ensures (a + "." + n)[k] != '.'
    {
      assert (a + "." + n)[k] == n[k - |a| - 1];
    }
  }

  lemma LastDot(a: string, n: string, b: string, m: string)
    requires a + "." + n == b + "." + m && '.' !in n && '.' !in m
    ensures a == b && n == m
  {
    var s := a + "." + n;
    NoDotAfter(a, n);
    NoDotAfter(b, m);
    assert s[|a|] == '.' && s[|b|] == '.';
    assert |a| == |b|;
    assert a == s[..|a|] && b == s[..|b|];
    assert n == s[|a| + 1..] && m == s[|b| + 1..];
  }

  lemma RenderEnd(path: seq<Step>)
    requires PlainPath(path)
    ensures path[|path| - 1].Each? <==> Render(path) != "" && Render(path)[|Render(path)| - 1] == ']'
    ensures path[|path| - 1].Name? ==> (|path| > 1 <==> '.' in Render(path))
  {
    var last := path[|path| - 1];
    assert PlainStep(last);
    if last.Name? && |path| > 1 { assert Render(path)[|Render(path[..|path| - 1])|] == '.'; }
  }

  /** Names without separators: the text of a path determines the path. */
  lemma {:induction false} RenderInjective(p: seq<Step>, q: seq<Step>)
    requires PlainPath(p) && PlainPath(q) && Render(p) == Render(q)
    ensures p == q
    decreases |p|
  {
    RenderEnd(p);
    RenderEnd(q);
    var p', q', last, last' := p[..|p| - 1], q[..|q| - 1], p[|p| - 1], q[|q| - 1];
    assert PlainStep(last) && PlainStep(last');
    assert p == p' + [last] && q == q' + [last'];
    if last.Each? {
      assert Render(p') == Render(p)[..|Render(p)| - 2];
      RenderInjective(p', q');
    } else if |p| > 1 && |q| > 1 {
      LastDot(Render(p'), last.name, Render(q'), last'.name);
      RenderInjective(p', q');
    }
  }
}
