/** What the rows of a document say about its scalars (src/document_fields.rs). */
module RowValues {
  import opened Options
  import opened Frontmatter
  import opened Projection
  import opened ProjectionLaws

  // ---- texts ----

  /** The value is this whole number, however it was written. */
  predicate IsWhole(v: Value, i: int) { v.Num? && NumberValue(v.n) == i as real }

  predicate In64Bits(i: int) { -0x8000_0000_0000_0000 <= i < 0x1_0000_0000_0000_0000 }

  /** A string is its own text, a boolean is its literal, a whole number its digits; any other
      number, having a fraction or no room in 64 bits, is a float as the formatter shows it. */
  ghost predicate Spells(fmt: Formats, v: Value, text: string) {
    match v
    case Str(s) => text == s
    case Bool(b) => (b <==> text == "true") && (!b <==> text == "false")
    case Num(n) =>
      && (forall i :: In64Bits(i) && IsWhole(v, i) ==> text == Decimal(i))
      && ((forall i :: In64Bits(i) ==> !IsWhole(v, i)) ==>
           n.Float? && text == if n.f == U64_BOUND as real then Decimal(U64_BOUND - 1) else fmt.show(n.f))
    case _ => false
  }

  lemma CanonicalSpells(fmt: Formats, v: Value, text: string)
    requires CanonicalText(fmt, v) == Some(text) && (v.Num? ==> InRange(v.n))
    ensures Spells(fmt, v, text)
  {
    if v.Num? {
      SpelledIntIs(v.n, fmt.show);
      SpelledAtBound();
      forall i | In64Bits(i)
        ensures IsWhole(v, i) ==> text == Decimal(i)
      {
        NotSpelled(v.n, i);
      }
      if v.n.Float? { assert v.n.f.Floor as real == v.n.f ==> IsWhole(v, v.n.f.Floor); } else { WholeIs(v); }
    }
  }

  lemma WholeIs(v: Value)
    requires v.Num? && InRange(v.n) && !v.n.Float?
    ensures exists i :: In64Bits(i) && IsWhole(v, i)
  {
    var i: int := if v.n.PosInt? then v.n.u else v.n.i;
    assert In64Bits(i) && IsWhole(v, i);
  }

  lemma {:induction false} DigitsAre(n: nat)
    ensures FromDigits(Digits(n)) == n && (Digits(n)[0] == '0' ==> n == 0 && |Digits(n)| == 1)
  {
    DigitsRead(n);
    if n >= 10 { DigitsAre(n / 10); }
  }

  /** Digits read back as the number and never start with a needless zero; a minus sign stands before
      those of a negative number. */
  lemma DecimalReads(i: int)
    ensures var text := Decimal(i);
      var digits := if i < 0 then text[1..] else text;
      && text != "" && (i < 0 ==> text[0] == '-')
      && (forall k :: 0 <= k < |digits| ==> '0' <= digits[k] <= '9')
      && digits != "" && (digits[0] == '0' ==> i == 0 && |digits| == 1)
      && FromDigits(digits) == if i < 0 then -i else i
  {
    DigitsAre(if i < 0 then -i else i);
    if i < 0 { assert Decimal(i)[1..] == Digits(-i); }
  }

  // ---- numbers ----

  /** The type a schema node declares, if any. */
  function TypeOf(node: Option<FieldDef>): Option<FieldType> { if node.Some? then node.value.ty else None }

  /** What range queries see of a scalar: numbers in number fields, booleans as 1 and 0 in boolean
      fields, the instant a text names in date fields, nothing in the others; in a field of no
      declared type, numbers and booleans. */
  ghost predicate Measures(fmt: Formats, ty: Option<FieldType>, v: Value, num: Option<real>) {
    && (v.Num? ==> num == if ty in {None, Some(Integer), Some(Real)} then Some(NumberValue(v.n)) else None)
    && (v.Bool? ==> num == if ty !in {None, Some(Boolean)} then None else if v.b then Some(1.0) else Some(0.0))
    && (v.Str? ==> num == if ty in {Some(Date), Some(Timestamp)} then fmt.epoch(v.s) else None)
  }

  lemma NumericMeasures(fmt: Formats, node: Option<FieldDef>, v: Value)
    ensures Measures(fmt, TypeOf(node), v, ScalarNumeric(fmt, node, v))
  {
  }

  /** What governs the elements of a list: its declared items; without those a scalar type of its own;
      otherwise nothing. What governs a field of an object: its declaration, if there is one. */
  lemma GoverningNode(node: Option<FieldDef>, i: nat, key: string)
    ensures var list := NodeInto(node, Index(i));
      if node.Some? && node.value.items.Some? then list == node.value.items
      else if TypeOf(node) in {None, Some(List), Some(Object)} then list == None
      else list == node
    ensures var field := NodeInto(node, Key(key));
      if node.Some? && key in node.value.fields then field == Some(node.value.fields[key]) else field == None
  {
  }

  // ---- the rows of a document ----

  /** Every number of the document is one JSON can hold. */
  ghost predicate NumbersInRange(doc: map<string, Value>) {
    forall k, loc :: k in doc ==> NumberInRange(doc[k], loc)
  }

  ghost predicate NumberInRange(v: Value, loc: seq<Turn>) {
    At(v, loc).Some? && At(v, loc).value.Num? ==> InRange(At(v, loc).value.n)
  }

  /** Each row of a document spells the scalar of its place and measures it by the type its schema
      node declares. */
  lemma RowsSpellValues(fmt: Formats, doc: map<string, Value>, schema: map<string, FieldDef>, r: Row)
    returns (loc: seq<Turn>)
    requires NumbersInRange(doc) && r in DocumentRows(fmt, doc, schema)
    ensures IsDocumentLeaf(fmt, doc, schema, loc, r)
    ensures var v, node := doc[loc[0].key], NodeAt(schema, loc[0].key);
      var leaf := At(v, loc[1..]).value;
      && Spells(fmt, leaf, r.text)
      && Measures(fmt, TypeOf(NodeOf(v, node, loc[1..])), leaf, r.num)
  {
    hide DocumentRows, Spells, Measures, CanonicalText, ScalarNumeric;
    loc := DocumentRowHasLeaf(fmt, doc, schema, r);
    var v, node := doc[loc[0].key], NodeAt(schema, loc[0].key);
    var leaf := At(v, loc[1..]).value;
    assert NumberInRange(v, loc[1..]);
    CanonicalSpells(fmt, leaf, r.text);
    NumericMeasures(fmt, NodeOf(v, node, loc[1..]), leaf);
  }
}
