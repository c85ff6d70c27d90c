/**
 * JavaScript values as they flow through the tracer: arguments, locals,
 * return values and log messages. Numbers are modelled as integers.
 *
 * `JsonCopy` is the `JSON.parse(JSON.stringify(...))` round trip the tracer
 * uses for every snapshot: it yields a fresh value that shares nothing with
 * the original, so with value semantics later mutation of the original can
 * never reach the copy. What the round trip does change is made explicit:
 * an `undefined` array element becomes `null`, and an object property whose
 * value is `undefined` disappears.
 */
module Values {
  datatype Value =
    | Undefined
    | Null
    | Bool(b: bool)
    | Num(n: int)
    | Str(s: string)
    | Arr(items: seq<Value>)
    | Obj(fields: map<string, Value>)

  /** A value with no `undefined` anywhere inside an array or an object. */
  ghost predicate Plain(v: Value)
  {
    match v
    case Arr(items) => forall i :: 0 <= i < |items| ==> items[i] != Undefined && Plain(items[i])
    case Obj(fields) => forall k :: k in fields ==> fields[k] != Undefined && Plain(fields[k])
    case _ => true
  }

  /** An object property after the JSON round trip (`undefined` properties are dropped). */
  function CopyFields(m: map<string, Value>): (r: map<string, Value>)
    decreases Obj(m), 0, 0
    ensures r.Keys <= m.Keys
    ensures forall k :: k in m ==> (k in r <==> m[k] != Undefined)
  {
    map k | k in m && m[k] != Undefined :: JsonCopy(m[k])
  }

  /**
   * The value read back after `JSON.parse(JSON.stringify(v))` when `v` sits in
   * an object property (an `undefined` property reads back as `undefined`).
   */
  function JsonCopy(v: Value): (r: Value)
    decreases v, 1, 0
    ensures v.Undefined? <==> r.Undefined?
    ensures v.Arr? <==> r.Arr?
    ensures v.Obj? <==> r.Obj?
    ensures v.Arr? ==> |r.items| == |v.items|
  {
    match v
    case Arr(items) => Arr(CopyItems(items, 0))
    case Obj(fields) => Obj(CopyFields(fields))
    case _ => v
  }

  /** The array elements from index `i` on after the round trip (`undefined` elements read back as `null`). */
  function CopyItems(items: seq<Value>, i: nat): (r: seq<Value>)
    requires i <= |items|
    decreases Arr(items), 0, |items| - i
    ensures |r| == |items| - i
  {
    if i == |items| then []
    else [if items[i] == Undefined then Null else JsonCopy(items[i])] + CopyItems(items, i + 1)
  }

  lemma {:induction false} CopyItemsAt(items: seq<Value>, i: nat, j: nat)
    requires i <= j < |items|
    ensures CopyItems(items, i)[j - i] == if items[j] == Undefined then Null else JsonCopy(items[j])
    decreases j - i
  {
    if i < j {
      CopyItemsAt(items, i + 1, j);
    }
  }

  /** A plain value survives the JSON round trip unchanged. */
  lemma {:induction false} JsonCopyOfPlain(v: Value)
    requires Plain(v)
    ensures JsonCopy(v) == v
  {
    match v
    case Arr(items) =>
      forall i | 0 <= i < |items| ensures JsonCopy(v).items[i] == items[i] {
        CopyItemsAt(items, 0, i);
        JsonCopyOfPlain(items[i]);
      }
    case Obj(fields) =>
      forall k | k in fields ensures JsonCopy(fields[k]) == fields[k] {
        JsonCopyOfPlain(fields[k]);
      }
      assert CopyFields(fields) == fields;
    case _ =>
  }

  /** What the round trip gives back is plain. */
  lemma {:induction false} JsonCopyIsPlain(v: Value)
    ensures Plain(JsonCopy(v))
  {
    match v
    case Arr(items) =>
      forall i | 0 <= i < |items| ensures JsonCopy(v).items[i] != Undefined && Plain(JsonCopy(v).items[i]) {
        CopyItemsAt(items, 0, i);
        if items[i] != Undefined {
          JsonCopyIsPlain(items[i]);
        }
      }
    case Obj(fields) =>
      forall k | k in fields && fields[k] != Undefined ensures Plain(JsonCopy(fields[k])) {
        JsonCopyIsPlain(fields[k]);
      }
    case _ =>
  }

  /** Copying a snapshot again changes nothing. */
  lemma JsonCopyIdempotent(v: Value)
    ensures JsonCopy(JsonCopy(v)) == JsonCopy(v)
  {
    JsonCopyIsPlain(v);
    JsonCopyOfPlain(JsonCopy(v));
  }

  /** Copying the properties of an already copied object changes nothing. */
  lemma CopyFieldsIdempotent(m: map<string, Value>)
    ensures CopyFields(CopyFields(m)) == CopyFields(m)
  {
    JsonCopyIdempotent(Obj(m));
  }

  // ---------------------------------------------------------------
  // Decimal rendering of numbers (template literals, frame ids)
  // ---------------------------------------------------------------

  function DigitChar(d: nat): (c: char)
    requires d < 10
    ensures '0' <= c <= '9'
  {
    ('0' as int + d) as char
  }

  /** The decimal digits of `n`, most significant first, without leading zeros. */
  function NatToString(n: nat): (s: string)
    ensures |s| >= 1
    ensures s[|s| - 1] == DigitChar(n % 10)
    ensures (n < 10) <==> (|s| == 1)
  {
    if n < 10 then [DigitChar(n)] else NatToString(n / 10) + [DigitChar(n % 10)]
  }

  lemma DigitCharInjective(a: nat, b: nat)
    requires a < 10 && b < 10 && DigitChar(a) == DigitChar(b)
    ensures a == b
  {
  }

  /** Distinct numbers render differently, so ids built from them are distinct. */
  lemma {:induction false} NatToStringInjective(a: nat, b: nat)
    requires NatToString(a) == NatToString(b)
    ensures a == b
  {
    var s := NatToString(a);
    DigitCharInjective(a % 10, b % 10);
    if a >= 10 && b >= 10 {
      assert NatToString(a / 10) == s[..|s| - 1] == NatToString(b / 10);
      NatToStringInjective(a / 10, b / 10);
    }
  }

  /** JavaScript's rendering of an integral number. */
  function IntToString(i: int): (s: string)
    ensures |s| >= 1
  {
    if i < 0 then "-" + NatToString(-i) else NatToString(i)
  }

  /** `String(v)` as a template literal `${v}` renders it. */
  function Display(v: Value): string
  {
    match v
    case Undefined => "undefined"
    case Null => "null"
    case Bool(b) => if b then "true" else "false"
    case Num(n) => IntToString(n)
    case Str(s) => s
    case Arr(items) =>
      // `Array.prototype.join(',')`: `null` and `undefined` elements render empty
      JoinComma(seq(|items|, i requires 0 <= i < |items| =>
        if items[i] == Undefined || items[i] == Null then "" else Display(items[i])))
    case Obj(_) => "[object Object]"
  }

  /** The strings joined with `","` between neighbours. */
  function JoinComma(parts: seq<string>): string
  {
    if |parts| == 0 then "" else if |parts| == 1 then parts[0]
    else parts[0] + "," + JoinComma(parts[1..])
  }

  /** `JSON.stringify` of an array of integers, e.g. `[1,2,3]`. */
  function IntsToJson(xs: seq<int>): (s: string)
    ensures |s| >= 2 && s[0] == '[' && s[|s| - 1] == ']'
  {
    "[" + JoinInts(xs) + "]"
  }

  /** The integers rendered and joined with `","` between neighbours. */
  function JoinInts(xs: seq<int>): string
  {
    if |xs| == 0 then "" else if |xs| == 1 then IntToString(xs[0])
    else IntToString(xs[0]) + "," + JoinInts(xs[1..])
  }

  /** The value of a JavaScript array of integers. */
  function IntArray(xs: seq<int>): (v: Value)
    ensures v.Arr? && |v.items| == |xs|
  {
    Arr(NumItems(xs))
  }

  /** The elements of `IntArray(xs)`, one number per integer. */
  function NumItems(xs: seq<int>): (items: seq<Value>)
    ensures |items| == |xs|
  {
    if |xs| == 0 then [] else NumItems(xs[..|xs| - 1]) + [Num(xs[|xs| - 1])]
  }

  lemma {:induction false} NumItemsAt(xs: seq<int>, i: nat)
    requires i < |xs|
    ensures NumItems(xs)[i] == Num(xs[i])
  {
    if i < |xs| - 1 {
      NumItemsAt(xs[..|xs| - 1], i);
    }
  }

  /** The value of a JavaScript array of booleans. */
  function BoolArray(xs: seq<bool>): (v: Value)
    ensures v.Arr? && |v.items| == |xs|
  {
    Arr(BoolItems(xs))
  }

  /** The elements of `BoolArray(xs)`, one boolean per flag. */
  function BoolItems(xs: seq<bool>): (items: seq<Value>)
    ensures |items| == |xs|
  {
    if |xs| == 0 then [] else BoolItems(xs[..|xs| - 1]) + [Bool(xs[|xs| - 1])]
  }

  lemma {:induction false} BoolItemsAt(xs: seq<bool>, i: nat)
    requires i < |xs|
    ensures BoolItems(xs)[i] == Bool(xs[i])
  {
    if i < |xs| - 1 {
      BoolItemsAt(xs[..|xs| - 1], i);
    }
  }

  /** Array values are plain, so a snapshot of one is the array itself. */
  lemma IntArrayPlain(xs: seq<int>)
    ensures JsonCopy(IntArray(xs)) == IntArray(xs)
  {
    forall i | 0 <= i < |xs| ensures IntArray(xs).items[i] == Num(xs[i]) {
      NumItemsAt(xs, i);
    }
    JsonCopyOfPlain(IntArray(xs));
  }

  lemma BoolArrayPlain(xs: seq<bool>)
    ensures JsonCopy(BoolArray(xs)) == BoolArray(xs)
  {
    forall i | 0 <= i < |xs| ensures BoolArray(xs).items[i] == Bool(xs[i]) {
      BoolItemsAt(xs, i);
    }
    JsonCopyOfPlain(BoolArray(xs));
  }
}
