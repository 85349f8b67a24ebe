/** Frontmatter values, schema nodes and the canonical form of scalars (src/document_fields.rs). */
module Frontmatter {
  import opened Options

  /** A JSON number as it was written: a whole number that is not negative, a negative one, or a
      float. */
  datatype Number = PosInt(u: nat) | NegInt(i: int) | Float(f: real)

  datatype Value =
    | Null | Bool(b: bool) | Num(n: Number) | Str(s: string) | Arr(items: seq<Value>) | Obj(fields: map<string, Value>)

  datatype FieldType = Text | Integer | Real | Boolean | Enum | List | Date | Timestamp | Object

  datatype FieldDef = FieldDef(ty: Option<FieldType>, items: Option<FieldDef>, fields: map<string, FieldDef>)

  /** How floats are written out, and the instant a date or timestamp text names. */
  datatype Formats = Formats(show: real -> string, epoch: string -> Option<real>)

  // ---- numbers ----

  const U64_BOUND: int := 0x1_0000_0000_0000_0000
  const I64_BOUND: int := 0x8000_0000_0000_0000

  predicate InRange(n: Number) {
    match n
    case PosInt(u) => u < U64_BOUND
    case NegInt(i) => -I64_BOUND <= i < 0
    case Float(_) => true
  }

  function NumberValue(n: Number): real {
    match n
    case PosInt(u) => u as real
    case NegInt(i) => i as real
    case Float(f) => f
  }

  function Digit(d: nat): char
    requires d < 10
  {
    '0' + d as char
  }

  function Digits(n: nat): (s: string)
    ensures s != "" && forall i :: 0 <= i < |s| ==> '0' <= s[i] <= '9'
  {
    if n < 10 then [Digit(n)] else Digits(n / 10) + [Digit(n % 10)]
  }

  function Decimal(i: int): string { if i < 0 then "-" + Digits(-i) else Digits(i) }

  /** One spelling per number, whether it was written as an integer or as a float; the cast of an
      integral float saturates at the largest 64-bit integer. */
  function CanonicalNumber(n: Number, show: real -> string): string {
    match n
    case PosInt(u) => Decimal(u)
    case NegInt(i) => Decimal(i)
    case Float(f) =>
      if f.Floor as real != f then show(f)
      else if 0 <= f.Floor <= U64_BOUND then Decimal(if f.Floor < U64_BOUND then f.Floor else U64_BOUND - 1)
      else if -I64_BOUND <= f.Floor < 0 then Decimal(f.Floor)
      else show(f)
  }

  function FromDigits(s: string): nat
    requires forall i :: 0 <= i < |s| ==> '0' <= s[i] <= '9'
  {
    if s == "" then 0 else 10 * FromDigits(s[..|s| - 1]) + (s[|s| - 1] - '0') as int
  }

  lemma {:induction false} DigitsRead(n: nat)
    ensures FromDigits(Digits(n)) == n
  {
    if n < 10 {
      assert Digits(n)[..0] == "";
    } else {
      DigitsRead(n / 10);
      assert Digits(n)[..|Digits(n)| - 1] == Digits(n / 10);
    }
  }

  lemma DecimalInjective(i: int, j: int)
    requires Decimal(i) == Decimal(j)
    ensures i == j
  {
    assert Decimal(i)[0] == Decimal(j)[0];
    DigitsRead(if i < 0 then -i else i);
    DigitsRead(if j < 0 then -j else j);
    if i < 0 && j < 0 {
      assert Decimal(i)[1..] == Digits(-i) && Decimal(j)[1..] == Digits(-j);
    }
  }

  /** The integer a number is spelled as, if it is spelled as one. */
  function SpelledInt(n: Number): Option<int> {
    match n
    case PosInt(u) => Some(u)
    case NegInt(i) => Some(i)
    case Float(f) =>
      if f.Floor as real == f && -I64_BOUND <= f.Floor <= U64_BOUND
      then Some(if f.Floor < U64_BOUND then f.Floor else U64_BOUND - 1)
      else None
  }

  /** A float that is not spelled as an integer: it has a fraction, or is out of range. */
  predicate AsText(f: real, isFloat: real -> bool) { isFloat(f) && SpelledInt(Float(f)).None? }

  /** Where float text is used, it tells floats apart and is never that of a 64-bit integer;
      `isFloat` says which numbers are floats. */
  ghost predicate ShowOk(show: real -> string, isFloat: real -> bool) {
    && (forall f, g :: AsText(f, isFloat) && AsText(g, isFloat) && show(f) == show(g) ==> f == g)
    && (forall f, i :: AsText(f, isFloat) && -I64_BOUND <= i < U64_BOUND ==> show(f) != Decimal(i))
  }

  /** A float number holds a float. */
  predicate Written(n: Number, isFloat: real -> bool) { n.Float? ==> isFloat(n.f) }

  // ---- such a spelling exists, with every multiple of a small fraction a float ----

  predicate OnGrid(d: nat, f: real) { (f * d as real).Floor as real == f * d as real }

  function GridText(d: nat, f: real): string {
    if f.Floor as real == f then Decimal(f.Floor) else Decimal((f * d as real).Floor) + "/"
  }

  lemma DecimalEnd(i: int)
    ensures Decimal(i) != "" && Decimal(i)[|Decimal(i)| - 1] != '/'
  {
  }

  lemma GridTextInjective(d: nat, f: real, g: real)
    requires d > 0 && OnGrid(d, f) && OnGrid(d, g) && GridText(d, f) == GridText(d, g)
    ensures f == g
  {
    hide Decimal;
    var i, j := if f.Floor as real == f then f.Floor else (f * d as real).Floor,
                if g.Floor as real == g then g.Floor else (g * d as real).Floor;
    DecimalEnd(i);
    DecimalEnd(j);
    assert (f.Floor as real == f) == (g.Floor as real == g);
    if f.Floor as real != f {
      assert Decimal(i) == GridText(d, f)[..|GridText(d, f)| - 1] == Decimal(j);
    }
    DecimalInjective(i, j);
    if f.Floor as real != f { SameMultiple(d, f, g); }
  }

  lemma SameMultiple(d: nat, f: real, g: real)
    requires d > 0 && f * d as real == g * d as real
    ensures f == g
  {
    assert (f - g) * d as real == 0.0;
  }

  /** Text as `ShowOk` asks exists for the multiples of any fraction, so for all doubles, which are
      multiples of 2^-1074. */
  lemma ShowIsPossible(d: nat)
    requires d > 0
    ensures ShowOk((f: real) => GridText(d, f), (f: real) => OnGrid(d, f))
  {
    hide Decimal;
    forall f, g | OnGrid(d, f) && OnGrid(d, g) && GridText(d, f) == GridText(d, g)
      ensures f == g
    {
      GridTextInjective(d, f, g);
    }
    forall f, i | SpelledInt(Float(f)).None? && -I64_BOUND <= i < U64_BOUND
      ensures GridText(d, f) != Decimal(i)
    {
      DecimalEnd(i);
      NotSpelled(Float(f), i);
      if f.Floor as real == f && GridText(d, f) == Decimal(i) { DecimalInjective(f.Floor, i); }
    }
  }

  // ---- which numbers share a spelling ----

  /** One of the two is the float 2^64, the other the integer just below it. */
  predicate AtSaturation(a: Number, b: Number) {
    || (a == Float(U64_BOUND as real) && NumberValue(b) == (U64_BOUND - 1) as real)
    || (b == Float(U64_BOUND as real) && NumberValue(a) == (U64_BOUND - 1) as real)
  }

  lemma SpelledIntIs(n: Number, show: real -> string)
    requires InRange(n)
    ensures SpelledInt(n).Some? ==> CanonicalNumber(n, show) == Decimal(SpelledInt(n).value)
                                    && -I64_BOUND <= SpelledInt(n).value < U64_BOUND
    ensures SpelledInt(n).None? ==> n.Float? && CanonicalNumber(n, show) == show(n.f)
    ensures SpelledInt(n).Some? && n != Float(U64_BOUND as real) ==> NumberValue(n) == SpelledInt(n).value as real
  {
  }

  /** Two numbers share a spelling exactly when they are the same number, with one exception: the
      float 2^64 is spelled as the integer below it. */
  lemma SameSpelling(a: Number, b: Number, show: real -> string, isFloat: real -> bool)
    requires ShowOk(show, isFloat)
    requires InRange(a) && InRange(b) && Written(a, isFloat) && Written(b, isFloat)
    ensures CanonicalNumber(a, show) == CanonicalNumber(b, show)
            <==> NumberValue(a) == NumberValue(b) || AtSaturation(a, b)
  {
    hide CanonicalNumber, SpelledInt, Decimal;
    var x, y := SpelledInt(a), SpelledInt(b);
    SpelledIntIs(a, show);
    SpelledIntIs(b, show);
    SpelledAtBound();
    if x.Some? && y.Some? {
      if CanonicalNumber(a, show) == CanonicalNumber(b, show) { DecimalInjective(x.value, y.value); }
    } else if x.Some? {
      NotSpelled(b, x.value);
      NotSpelled(b, U64_BOUND);
      NotSpelled(b, U64_BOUND - 1);
    } else if y.Some? {
      NotSpelled(a, y.value);
      NotSpelled(a, U64_BOUND);
      NotSpelled(a, U64_BOUND - 1);
    } else {
      NotSpelled(a, U64_BOUND);
      NotSpelled(b, U64_BOUND);
    }
  }

  lemma SpelledAtBound()
    ensures SpelledInt(Float(U64_BOUND as real)) == Some(U64_BOUND - 1)
  {
  }

  /** A number not spelled as an integer is no integer of 64 bits, nor 2^64. */
  lemma NotSpelled(n: Number, i: int)
    ensures SpelledInt(n).None? && -I64_BOUND <= i <= U64_BOUND ==> NumberValue(n) != i as real
  {
    assert (i as real).Floor == i;
  }

  // ---- scalars ----

  function CanonicalText(fmt: Formats, v: Value): Option<string> {
    match v
    case Str(s) => Some(s)
    case Bool(b) => Some(if b then "true" else "false")
    case Num(n) => Some(CanonicalNumber(n, fmt.show))
    case _ => None
  }

  function BoolNumber(b: bool): real { if b then 1.0 else 0.0 }

  /** What a scalar stores for range queries: by its declared type, else guessed from its own. */
  function ScalarNumeric(fmt: Formats, node: Option<FieldDef>, v: Value): Option<real> {
    if node.None? || node.value.ty.None? then
      (match v case Num(n) => Some(NumberValue(n)) case Bool(b) => Some(BoolNumber(b)) case _ => None)
    else match node.value.ty.value
      case Text | Enum | List | Object => None
      case Integer | Real => if v.Num? then Some(NumberValue(v.n)) else None
      case Boolean => if v.Bool? then Some(BoolNumber(v.b)) else None
      case Date | Timestamp => if v.Str? then fmt.epoch(v.s) else None
  }

  predicate IsContainer(v: Value) { v.Arr? || v.Obj? }

  /** The node a list's elements are read under. */
  function ElementNode(node: Option<FieldDef>): Option<FieldDef> {
    if node.None? then None
    else if node.value.items.Some? then node.value.items
    else match node.value.ty
      case None => None
      case Some(List) => None
      case Some(Object) => None
      case Some(_) => node
  }
}
