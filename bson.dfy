/**
 * Values as the document store holds them, and the store's comparison
 * rules: strings compare code point by code point, and values of different
 * types compare by a fixed type order (null, numbers, strings, booleans, dates).
 */
module Bson {

  /** A scalar document value. `Time` is a UTC timestamp (`datetime.utcnow()`). */
  datatype Value = Null | Bool(b: bool) | Int(i: int) | Str(s: string) | Time(t: int)

  /** A document: a dict from field name to value. */
  type Doc = map<string, Value>

  /** `d.get(f)`. A missing field reads as null; the store's matcher and sort treat it the same way. */
  function Get(d: Doc, f: string): Value
  {
    if f in d then d[f] else Null
  }

  /** The store's integers are signed 64-bit; the driver refuses to encode any other `int`. */
  const Int64Min := -0x8000_0000_0000_0000
  const Int64Max := 0x7FFF_FFFF_FFFF_FFFF

  predicate FitsInt64(i: int)
  {
    Int64Min <= i <= Int64Max
  }

  /** A document the driver can encode: every integer in it fits 64 bits. */
  predicate Encodable(d: Doc)
  {
    forall f :: f in d && d[f].Int? ==> FitsInt64(d[f].i)
  }

  /** Python truthiness, as `if x:` and `x or y` use it. */
  predicate Truthy(v: Value)
  {
    match v
    case Null => false
    case Bool(b) => b
    case Int(i) => i != 0
    case Str(s) => s != []
    case Time(_) => true
  }

  /** Lexicographic order on strings (`$lt` and `sort` on string fields). */
  predicate StrLt(a: string, b: string)
    decreases |a|
  {
    if a == [] then b != []
    else if b == [] then false
    else if a[0] != b[0] then a[0] < b[0]
    else StrLt(a[1..], b[1..])
  }

  predicate StrLe(a: string, b: string)
  {
    a == b || StrLt(a, b)
  }

  lemma {:induction false} StrLtIrreflexive(a: string)
    ensures !StrLt(a, a)
  {
    if a != [] {
      StrLtIrreflexive(a[1..]);
    }
  }

  lemma {:induction false} StrLtAsymmetric(a: string, b: string)
    requires StrLt(a, b)
    ensures !StrLt(b, a)
  {
    if a != [] && b != [] && a[0] == b[0] {
      StrLtAsymmetric(a[1..], b[1..]);
    }
  }

  lemma {:induction false} StrLtTransitive(a: string, b: string, c: string)
    requires StrLt(a, b) && StrLt(b, c)
    ensures StrLt(a, c)
  {
    if a != [] && b != [] && c != [] && a[0] == b[0] && b[0] == c[0] {
      StrLtTransitive(a[1..], b[1..], c[1..]);
    }
  }

  lemma {:induction false} StrLtTotal(a: string, b: string)
    requires a != b
    ensures StrLt(a, b) || StrLt(b, a)
  {
    if a != [] && b != [] && a[0] == b[0] {
      assert a == [a[0]] + a[1..] && b == [b[0]] + b[1..];
      StrLtTotal(a[1..], b[1..]);
    }
  }

  /** Comparing two strings whose first parts have equal length: the first parts decide unless they are equal. */
  lemma {:induction false} StrLtConcat(a1: string, a2: string, b1: string, b2: string)
    requires |a1| == |b1|
    ensures StrLt(a1 + a2, b1 + b2) <==> StrLt(a1, b1) || (a1 == b1 && StrLt(a2, b2))
  {
    if a1 == [] {
      assert a1 + a2 == a2 && b1 + b2 == b2;
    } else {
      assert (a1 + a2)[0] == a1[0] && (b1 + b2)[0] == b1[0];
      assert (a1 + a2)[1..] == a1[1..] + a2 && (b1 + b2)[1..] == b1[1..] + b2;
      assert a1 == [a1[0]] + a1[1..] && b1 == [b1[0]] + b1[1..];
      StrLtConcat(a1[1..], a2, b1[1..], b2);
    }
  }

  /** Position of a value's type in the store's cross-type order. */
  function Rank(v: Value): nat
  {
    match v
    case Null => 0
    case Int(_) => 1
    case Str(_) => 2
    case Bool(_) => 3
    case Time(_) => 4
  }

  /** The order the store sorts a field by. */
  predicate ValueLe(a: Value, b: Value)
  {
    if Rank(a) != Rank(b) then Rank(a) < Rank(b)
    else match a
      case Null => true
      case Int(x) => x <= b.i
      case Str(x) => StrLe(x, b.s)
      case Bool(x) => !x || b.b
      case Time(x) => x <= b.t
  }

  lemma ValueLeTotal(a: Value, b: Value)
    ensures ValueLe(a, b) || ValueLe(b, a)
  {
    if a.Str? && b.Str? && a.s != b.s {
      StrLtTotal(a.s, b.s);
    }
  }

  lemma ValueLeTransitive(a: Value, b: Value, c: Value)
    requires ValueLe(a, b) && ValueLe(b, c)
    ensures ValueLe(a, c)
  {
    if a.Str? && b.Str? && c.Str? && StrLt(a.s, b.s) && StrLt(b.s, c.s) {
      StrLtTransitive(a.s, b.s, c.s);
    }
  }

  lemma ValueLeAntisymmetric(a: Value, b: Value)
    requires ValueLe(a, b) && ValueLe(b, a)
    ensures a == b
  {
    if a.Str? && b.Str? && a.s != b.s {
      StrLtAsymmetric(a.s, b.s);
    }
  }
}
