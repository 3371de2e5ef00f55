/**
 * PHP values as the client sees them after `json_decode($s, true)`: null,
 * booleans, integers, strings and arrays. A PHP array is an ordered list of
 * (key, value) entries; every key is kept in its string form, which is
 * faithful for lookups because PHP stores the canonical decimal strings as
 * integer keys and nothing else.
 */
module PhpValue {
  import opened PhpString

  datatype Value =
    | Null
    | Bool(b: bool)
    | Int(i: int)
    | Str(s: string)
    | Arr(entries: seq<(string, Value)>)

  const EmptyArray: Value := Arr([])

  /** PHP truthiness (`if ($v)`). */
  predicate Truthy(v: Value)
  {
    match v
    case Null => false
    case Bool(b) => b
    case Int(i) => i != 0
    case Str(s) => s != "" && s != "0"
    case Arr(es) => |es| > 0
  }

  /** `empty($s)` for a string. */
  predicate EmptyString(s: string)
  {
    !Truthy(Str(s))
  }

  /** `get_debug_type($v)`. */
  function DebugType(v: Value): string
  {
    match v
    case Null => "null"
    case Bool(_) => "bool"
    case Int(_) => "int"
    case Str(_) => "string"
    case Arr(_) => "array"
  }

  /** The entry stored under key `k`, if the value is an array that has one. */
  function Lookup(entries: seq<(string, Value)>, k: string): (r: Option<Value>)
    ensures r.Some? ==> exists i :: 0 <= i < |entries| && entries[i] == (k, r.value)
    ensures r.None? ==> forall i :: 0 <= i < |entries| ==> entries[i].0 != k
  {
    if |entries| == 0 then None
    else if entries[0].0 == k then Some(entries[0].1)
    else
      var r := Lookup(entries[1..], k);
      assert r.Some? ==> entries[1..][0..] == entries[1..];
      r
  }

  /** `isset($v[$k])`: the key exists in an array and its value is not null.
      A string subject is treated as having no such offset. */
  predicate Isset(v: Value, k: string)
  {
    v.Arr? && Lookup(v.entries, k).Some? && Lookup(v.entries, k).value != Null
  }

  /** `$v[$k]` as an rvalue: null when the key or the array is missing. */
  function Index(v: Value, k: string): Value
  {
    if v.Arr? then
      match Lookup(v.entries, k)
      case Some(x) => x
      case None => Null
    else Null
  }

  /** `array_key_exists($k, $v)`. */
  predicate HasKey(v: Value, k: string)
  {
    v.Arr? && Lookup(v.entries, k).Some?
  }

  /** `count($v)` for an array. */
  function Count(v: Value): nat
    requires v.Arr?
  {
    |v.entries|
  }

  /** The values of an array, in order (`array_values`). */
  function ValuesOf(entries: seq<(string, Value)>): (r: seq<Value>)
    ensures |r| == |entries|
    ensures forall i :: 0 <= i < |r| ==> r[i] == entries[i].1
  {
    if |entries| == 0 then [] else [entries[0].1] + ValuesOf(entries[1..])
  }

  /** A PHP list: the values under the keys "0", "1", ... */
  function ListOf(vs: seq<Value>): (r: Value)
    ensures r.Arr? && |r.entries| == |vs| && ValuesOf(r.entries) == vs
  {
    Arr(seq(|vs|, i requires 0 <= i < |vs| => (IntToDec(i), vs[i])))
  }

  /** `array_column($rows, $col)`: for every row that is an array holding
      the key `col`, that key's value, in row order (null values included). */
  function Column(rows: seq<(string, Value)>, col: string): (r: seq<Value>)
    ensures |r| <= |rows|
  {
    if |rows| == 0 then []
    else
      var rest := Column(rows[1..], col);
      var row := rows[0].1;
      if HasKey(row, col) then [Index(row, col)] + rest else rest
  }

  /** The projection of two row lists one after the other is the
      projection of the first followed by that of the second: together with
      the one-row case of the definition this fixes the order of the result. */
  lemma {:induction false} ColumnAppend(a: seq<(string, Value)>, b: seq<(string, Value)>, col: string)
    ensures Column(a + b, col) == Column(a, col) + Column(b, col)
    decreases |a|
  {
    if |a| == 0 {
      assert a + b == b;
    } else {
      assert (a + b)[0] == a[0];
      assert (a + b)[1..] == a[1..] + b;
      ColumnAppend(a[1..], b, col);
    }
  }

  /** The projection has one value per row exactly when every row holds the column. */
  lemma {:induction false} ColumnFull(rows: seq<(string, Value)>, col: string)
    ensures |Column(rows, col)| == |rows| <==> forall i :: 0 <= i < |rows| ==> HasKey(rows[i].1, col)
  {
    if |rows| > 0 {
      ColumnFull(rows[1..], col);
      assert forall i :: 1 <= i < |rows| ==> rows[i] == rows[1..][i - 1];
      if !HasKey(rows[0].1, col) {
        assert |Column(rows, col)| <= |rows[1..]|;
      }
    }
  }

  /** PHP's `(int)` cast. */
  function ToInt(v: Value): int
  {
    match v
    case Null => 0
    case Bool(b) => if b then 1 else 0
    case Int(i) => i
    case Str(s) => StringToInt(s)
    case Arr(es) => if |es| > 0 then 1 else 0
  }

  /** PHP 8 `$i == $s`: numerically for a numeric string, otherwise the
      integer's decimal text against the string. */
  predicate IntEqualsString(i: int, s: string)
  {
    match NumericValue(s)
    case Some(x) => x == i as real
    case None => IntToDec(i) == s
  }

  /** PHP 8 `$v == $s` for a string on the right. */
  predicate LooseEqualsString(v: Value, s: string)
  {
    match v
    case Null => s == ""
    case Bool(b) => b == Truthy(Str(s))
    case Int(i) => IntEqualsString(i, s)
    case Str(t) => LooseEquals(t, s)
    case Arr(_) => false
  }

  /** PHP 8 `$i == $v` for an integer on the left. */
  predicate LooseEqualsInt(i: int, v: Value)
  {
    match v
    case Null => i == 0
    case Bool(b) => b == (i != 0)
    case Int(j) => i == j
    case Str(s) => IntEqualsString(i, s)
    case Arr(_) => false
  }

  /** `in_array($i, $vs)` with its default loose comparison. */
  predicate InArrayInt(i: int, vs: seq<Value>)
  {
    exists k :: 0 <= k < |vs| && LooseEqualsInt(i, vs[k])
  }
}
