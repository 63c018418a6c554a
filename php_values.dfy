/** Failure-compatible wrappers used for values that PHP may leave unset and
    for operations that throw. */
module Wrappers {
  datatype Option<+T> = None | Some(value: T)

  datatype Result<+T, +E> = Success(value: T) | Failure(error: E)

  datatype Outcome<+E> = Pass | Fail(error: E)
}

/** The slice of PHP's value model that the notifier manipulates: scalars,
    ordered arrays with integer or string keys, references to objects held in
    a heap, and resources.  `empty`, `isset`, string and integer casts and the
    loose comparison with an integer are written out explicitly. */
module PhpValues {
  import opened Wrappers

  type ObjId = nat

  /** An array key: PHP normalises keys to integers or strings. */
  datatype Key = KInt(i: int) | KStr(s: string)

  datatype Value =
    | VNull
    | VBool(b: bool)
    | VInt(i: int)
    | VStr(s: string)
    | VArr(entries: seq<(Key, Value)>)
    | VObj(id: ObjId)
    | VRes(kind: string)

  /** What an object looks like to the notifier: its class name, the result
      of `__toString` when the class is Stringable, and its properties as the
      `(array)` cast lists them. */
  datatype ObjInfo = ObjInfo(cls: string, asString: Option<string>, props: seq<(Key, Value)>)

  type Heap = map<ObjId, ObjInfo>

  /** A configuration or options bag; every key the notifier uses is a string. */
  type Config = map<string, Value>

  /** The object a reference points to; a dangling reference reads as an empty
      stdClass instance. */
  function Deref(heap: Heap, id: ObjId): ObjInfo
  {
    if id in heap then heap[id] else ObjInfo("stdClass", None, [])
  }

  /** PHP's `empty()`: "", "0", 0, null, false and the empty array. */
  predicate Empty(v: Value)
  {
    match v
    case VNull => true
    case VBool(b) => !b
    case VInt(i) => i == 0
    case VStr(s) => s == "" || s == "0"
    case VArr(es) => es == []
    case VObj(_) => false
    case VRes(_) => false
  }

  /** PHP's truthiness, the negation of `empty()`. */
  predicate Truthy(v: Value)
  {
    !Empty(v)
  }

  /** `$c[$k]`, reading a missing key as null. */
  function Get(c: Config, k: string): Value
  {
    if k in c then c[k] else VNull
  }

  /** `empty($c[$k])` */
  predicate EmptyAt(c: Config, k: string)
  {
    Empty(Get(c, k))
  }

  /** `isset($c[$k])`: the key is present and not null. */
  predicate IssetAt(c: Config, k: string)
  {
    k in c && c[k] != VNull
  }

  /** `$v[$k]` for a string key, reading a missing key, or any non-array, as null. */
  function Lookup(v: Value, k: string): Value
  {
    if v.VArr? then LookupEntries(v.entries, KStr(k)) else VNull
  }

  function LookupEntries(es: seq<(Key, Value)>, k: Key): Value
  {
    if es == [] then VNull
    else if es[0].0 == k then es[0].1
    else LookupEntries(es[1..], k)
  }

  function DigitChar(d: nat): char
    requires d < 10
  {
    "0123456789"[d]
  }

  predicate IsDigit(c: char)
  {
    48 <= c as int <= 57
  }

  function DigitValue(c: char): nat
    requires IsDigit(c)
  {
    c as int - 48
  }

  /** Decimal digits of a natural number, most significant first. */
  function NatToString(n: nat): (s: string)
    ensures |s| > 0
    ensures forall i :: 0 <= i < |s| ==> IsDigit(s[i])
  {
    if n < 10 then [DigitChar(n)] else NatToString(n / 10) + [DigitChar(n % 10)]
  }

  /** The value of a string of decimal digits. */
  function DigitsValue(s: string): nat
    requires forall i :: 0 <= i < |s| ==> IsDigit(s[i])
  {
    if s == [] then 0 else 10 * DigitsValue(s[..|s| - 1]) + DigitValue(s[|s| - 1])
  }

  /** Printing a natural number and reading the digits back gives the number. */
  lemma {:induction false} NatToStringRoundTrip(n: nat)
    ensures DigitsValue(NatToString(n)) == n
  {
    if n >= 10 {
      var s := NatToString(n / 10) + [DigitChar(n % 10)];
      assert s[..|s| - 1] == NatToString(n / 10);
      NatToStringRoundTrip(n / 10);
    }
  }

  /** `(string)` of an integer. */
  function IntToString(i: int): string
  {
    if i < 0 then "-" + NatToString(-i) else NatToString(i)
  }

  /** The string PHP uses for an array key in string context. */
  function KeyString(k: Key): string
  {
    match k
    case KInt(i) => IntToString(i)
    case KStr(s) => s
  }

  /** `(string)` cast and `%s` formatting.  Objects and resources, whose cast
      PHP either delegates to `__toString` or rejects, read as "". */
  function ToStr(v: Value): string
  {
    match v
    case VNull => ""
    case VBool(b) => if b then "1" else ""
    case VInt(i) => IntToString(i)
    case VStr(s) => s
    case VArr(_) => "Array"
    case VObj(_) => ""
    case VRes(_) => ""
  }

  /** An optionally signed run of decimal digits: the numeric strings the
      model compares numerically. */
  predicate IsIntString(s: string)
  {
    if |s| > 0 && (s[0] == '-' || s[0] == '+') then
      |s| > 1 && forall i :: 1 <= i < |s| ==> IsDigit(s[i])
    else
      |s| > 0 && forall i :: 0 <= i < |s| ==> IsDigit(s[i])
  }

  function IntStringValue(s: string): int
    requires IsIntString(s)
  {
    if s[0] == '-' then -(DigitsValue(s[1..]) as int)
    else if s[0] == '+' then DigitsValue(s[1..])
    else DigitsValue(s)
  }

  /** The leading integer of a string, as `(int)` and `%d` read it. */
  function LeadingInt(s: string): int
  {
    var neg := |s| > 0 && s[0] == '-';
    var start := if |s| > 0 && (s[0] == '-' || s[0] == '+') then 1 else 0;
    var n: int := DigitsValue(DigitPrefix(s[start..]));
    if neg then -n else n
  }

  function DigitPrefix(s: string): (p: string)
    ensures |p| <= |s| && p == s[..|p|]
    ensures forall i :: 0 <= i < |p| ==> IsDigit(p[i])
  {
    if s == [] || !IsDigit(s[0]) then [] else [s[0]] + DigitPrefix(s[1..])
  }

  /** `(int)` cast, as used by `sprintf('%d', ...)`. */
  function IntVal(v: Value): int
  {
    match v
    case VNull => 0
    case VBool(b) => if b then 1 else 0
    case VInt(i) => i
    case VStr(s) => LeadingInt(s)
    case VArr(es) => if es == [] then 0 else 1
    case VObj(_) => 1
    case VRes(_) => 0
  }

  /** PHP 8's loose `$v == $n` for an integer `n`. */
  predicate LooseEqInt(v: Value, n: int)
  {
    match v
    case VNull => n == 0
    case VBool(b) => b == (n != 0)
    case VInt(i) => i == n
    case VStr(s) => IsIntString(s) && IntStringValue(s) == n
    case VArr(_) => false
    case VObj(_) => false
    case VRes(_) => false
  }

  /** `str_contains($hay, $needle)`; every string contains "". */
  predicate Contains(hay: string, needle: string)
  {
    exists i :: 0 <= i <= |hay| && OccursAt(hay, needle, i)
  }

  predicate OccursAt(hay: string, needle: string, i: int)
  {
    0 <= i && i + |needle| <= |hay| && hay[i..i + |needle|] == needle
  }

  lemma {:induction false} ContainsEmpty(hay: string)
    ensures Contains(hay, "")
  {
    assert OccursAt(hay, "", 0);
  }

  /** The printed form of 443 compares loosely equal to 443, so a port given
      as the string "443" selects the secure default. */
  lemma PortStringIsLooseInt()
    ensures LooseEqInt(VStr("443"), 443)
    ensures !LooseEqInt(VStr("8080"), 443)
  {
    assert "443"[..2] == "44" && "44"[..1] == "4" && "4"[..0] == "";
    assert DigitsValue("4") == 4;
    assert DigitsValue("44") == 44;
    assert DigitsValue("443") == 443;
    assert "8080"[..3] == "808" && "808"[..2] == "80" && "80"[..1] == "8" && "8"[..0] == "";
    assert DigitsValue("8") == 8;
    assert DigitsValue("80") == 80;
    assert DigitsValue("808") == 808;
    assert DigitsValue("8080") == 8080;
  }
}
