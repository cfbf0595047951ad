/**
 * JSON values as the client receives them, with the three JavaScript rules the
 * client applies to them: the array-or-object test, truthiness and the
 * template-string text of a scalar (`${v}`). Numbers are integers here.
 */
module Json {
  import opened Wrappers

  /**
   * A decoded JSON value. The members of an object are listed in the order in
   * which JavaScript enumerates the keys of the parsed object (`for ... in`).
   */
  datatype Value =
    | Null
    | Bool(b: bool)
    | Number(n: int)
    | Str(s: string)
    | Array(items: seq<Value>)
    | Object(members: seq<(string, Value)>)

  /** `Object.prototype.toString.call(v)` is `[object Array]` or `[object Object]`. */
  predicate IsBranch(v: Value) {
    v.Array? || v.Object?
  }

  /** JavaScript truthiness: `null`, `false`, `0` and `""` are falsy, arrays and objects never are. */
  predicate Truthy(v: Value) {
    match v
    case Null => false
    case Bool(b) => b
    case Number(n) => n != 0
    case Str(s) => s != ""
    case Array(_) => true
    case Object(_) => true
  }

  function Digit(d: nat): (c: char)
    requires d < 10
  {
    ('0' as int + d) as char
  }

  function DigitValue(c: char): nat {
    if '0' <= c <= '9' then c as int - '0' as int else 0
  }

  predicate IsDigits(s: string) {
    forall i :: 0 <= i < |s| ==> '0' <= s[i] <= '9'
  }

  /** The decimal text of a natural number, without leading zeros. */
  function NatToString(n: nat): (r: string)
    ensures |r| >= 1 && IsDigits(r)
    ensures |r| > 1 ==> r[0] != '0'
  {
    if n < 10 then [Digit(n)] else NatToString(n / 10) + [Digit(n % 10)]
  }

  /** `${n}` for an integer number: a '-' exactly for a negative number, then its digits. */
  function IntToString(i: int): (r: string)
    ensures |r| >= 1 && (r[0] == '-' <==> i < 0)
    ensures i < 0 ==> |r| >= 2 && IsDigits(r[1..])
    ensures i >= 0 ==> IsDigits(r)
  {
    if i < 0 then
      assert ("-" + NatToString(-i))[1..] == NatToString(-i);
      "-" + NatToString(-i)
    else NatToString(i)
  }

  /** Reads back the digits written by NatToString. */
  function ParseNat(s: string): nat
    decreases |s|
  {
    if s == [] then 0 else ParseNat(s[..|s| - 1]) * 10 + DigitValue(s[|s| - 1])
  }

  function ParseInt(s: string): int {
    if |s| > 0 && s[0] == '-' then -(ParseNat(s[1..]) as int) else ParseNat(s)
  }

  lemma {:induction false} ParseNatToString(n: nat)
    ensures ParseNat(NatToString(n)) == n
  {
    if n >= 10 {
      var s := NatToString(n / 10) + [Digit(n % 10)];
      assert s[..|s| - 1] == NatToString(n / 10);
      ParseNatToString(n / 10);
    }
  }

  /** The text of an integer determines the integer. */
  lemma ParseIntToString(i: int)
    ensures ParseInt(IntToString(i)) == i
  {
    if i < 0 {
      assert ("-" + NatToString(-i))[1..] == NatToString(-i);
      ParseNatToString(-i);
    } else {
      ParseNatToString(i);
    }
  }

  /** Two integers have the same text exactly when they are equal. */
  lemma IntToStringInjective(a: int, b: int)
    ensures IntToString(a) == IntToString(b) <==> a == b
  {
    if IntToString(a) == IntToString(b) {
      ParseIntToString(a);
      ParseIntToString(b);
    }
  }

  /**
   * The template-string text `${v}` of a scalar value: a string is its own text,
   * and the text of a number reads back as that number.
   */
  function Text(v: Value): (r: string)
    requires !IsBranch(v)
    ensures v.Str? ==> r == v.s
    ensures v.Number? ==> ParseInt(r) == v.n
    ensures v.Bool? ==> (r == "true" <==> v.b) && (r == "false" <==> !v.b)
    ensures v.Null? ==> r == "null"
  {
    match v
    case Null => "null"
    case Bool(b) => if b then "true" else "false"
    case Number(n) => ParseIntToString(n); IntToString(n)
    case Str(s) => s
  }

  /**
   * The two tests the client applies to a value: the falsy values are exactly
   * `null`, `false`, `0` and `""`, and an array or object is never falsy.
   */
  lemma TruthyRule(v: Value)
    ensures !Truthy(v) <==> v == Null || v == Bool(false) || v == Number(0) || v == Str("")
    ensures IsBranch(v) ==> Truthy(v)
  {
  }

  /**
   * The (key, value) pairs that `for (k in v)` visits, with `v[k]`: the indices
   * "0", "1", ... of an array, or the keys of an object.
   */
  function Entries(v: Value): (r: seq<(string, Value)>)
    requires IsBranch(v)
    ensures forall i :: 0 <= i < |r| ==> r[i].1 < v
    ensures v.Array? ==> |r| == |v.items| && forall i :: 0 <= i < |r| ==> r[i].1 == v.items[i]
    ensures v.Object? ==> r == v.members
  {
    match v
    case Array(items) => seq(|items|, i requires 0 <= i < |items| => (IntToString(i), items[i]))
    case Object(members) => members
  }

  /** The keys visited for an array are pairwise distinct, and each one reads back as its index. */
  lemma ArrayEntryKeys(items: seq<Value>, i: int, j: int)
    requires 0 <= i < |items| && 0 <= j < |items|
    ensures ParseInt(Entries(Array(items))[i].0) == i
    ensures Entries(Array(items))[i].0 == Entries(Array(items))[j].0 <==> i == j
  {
    ParseIntToString(i);
    IntToStringInjective(i, j);
  }

  /** The value bound to the first occurrence of `key`, as a JavaScript property read sees it. */
  function Find(members: seq<(string, Value)>, key: string): (r: Option<Value>)
    ensures r.Some? <==> exists i :: 0 <= i < |members| && members[i].0 == key
    ensures r.Some? ==> exists i :: 0 <= i < |members| && members[i] == (key, r.value)
  {
    if members == [] then None
    else if members[0].0 == key then Some(members[0].1)
    else Find(members[1..], key)
  }

  /** The value found is that of the first member with the key. */
  lemma {:induction false} FindFirst(members: seq<(string, Value)>, key: string, i: int)
    requires 0 <= i < |members| && members[i].0 == key
    requires forall j :: 0 <= j < i ==> members[j].0 != key
    ensures Find(members, key) == Some(members[i].1)
  {
    if i > 0 {
      FindFirst(members[1..], key, i - 1);
    }
  }

  /** `v[key]` for an object value, None otherwise. */
  function Field(v: Value, key: string): Option<Value> {
    if v.Object? then Find(v.members, key) else None
  }
}
