/**
 * JSON values as the vault handles them, with the few JavaScript operations
 * applied to them: truthiness, property access, strict equality,
 * `Object.entries`, `Array.from(uint8Array)` and `new Uint8Array(value)`.
 * Numbers are integers: the vault stores bytes, counters and timestamps.
 */
module JsonValue {
  import opened Wrappers
  import opened Bits
  import Text

  datatype Json =
    | JNull
    | JBool(b: bool)
    | JNum(n: int)
    | JStr(s: string)
    | JArr(items: seq<Json>)
    | JObj(members: seq<(string, Json)>)

  /** JavaScript truthiness of a value. */
  predicate Truthy(j: Json)
  {
    match j
    case JNull => false
    case JBool(b) => b
    case JNum(n) => n != 0
    case JStr(s) => s != ""
    case JArr(_) => true
    case JObj(_) => true
  }

  /** Truthiness of a value that may be `undefined` (`None`). */
  predicate Present(v: Option<Json>)
  {
    v.Some? && Truthy(v.value)
  }

  function Lookup(members: seq<(string, Json)>, name: string): (v: Option<Json>)
    ensures v.Some? <==> exists i :: 0 <= i < |members| && members[i].0 == name
    ensures v.Some? ==> exists i :: 0 <= i < |members| && members[i] == (name, v.value)
  {
    if members == [] then None
    else if members[0].0 == name then Some(members[0].1)
    else
      var v := Lookup(members[1..], name);
      assert forall i :: 1 <= i < |members| ==> members[i] == members[1..][i - 1];
      v
  }

  /** `value.name`: only objects carry the names the vault looks up. */
  function Prop(j: Json, name: string): Option<Json>
  {
    if j.JObj? then Lookup(j.members, name) else None
  }

  predicate IsPrimitive(j: Json)
  {
    !j.JArr? && !j.JObj?
  }

  /**
   * `a === b` on two values read from different parses: `undefined` equals
   * `undefined`, primitives compare by value, and two arrays or objects are
   * never the same reference.
   */
  predicate StrictEquals(a: Option<Json>, b: Option<Json>)
  {
    match (a, b)
    case (None, None) => true
    case (Some(x), Some(y)) => IsPrimitive(x) && x == y
    case _ => false
  }

  /** `JSON.stringify(Array.from(bytes))` shape: an array of numbers. */
  function BytesToJson(bs: seq<byte>): (j: Json)
    ensures j.JArr? && |j.items| == |bs|
  {
    JArr(seq(|bs|, i requires 0 <= i < |bs| => JNum(bs[i])))
  }

  predicate IsDigit(c: char)
  {
    '0' <= c <= '9'
  }

  predicate AllDigits(s: string)
  {
    forall i :: 0 <= i < |s| ==> IsDigit(s[i])
  }

  /** The number a string of decimal digits spells. */
  function DigitsValue(s: string): nat
    requires AllDigits(s)
    decreases |s|
  {
    if s == [] then 0
    else DigitsValue(s[..|s| - 1]) * 10 + (s[|s| - 1] as int - '0' as int)
  }

  /** The length of the run of digits a string starts with. */
  function DigitRun(s: string): (k: nat)
    ensures k <= |s| && AllDigits(s[..k])
    ensures k < |s| ==> !IsDigit(s[k])
    decreases |s|
  {
    if s != [] && IsDigit(s[0]) then
      var k := DigitRun(s[1..]);
      assert forall i :: 0 <= i < k ==> s[..k + 1][i + 1] == s[1..][..k][i];
      k + 1
    else 0
  }

  /**
   * An unsigned decimal literal `digits` or `digits.digits*`, truncated
   * toward zero; `None` for any other text.
   */
  function UnsignedValue(s: string): Option<nat>
  {
    var k := DigitRun(s);
    if k == 0 then None
    else if k == |s| || (s[k] == '.' && AllDigits(s[k + 1..])) then Some(DigitsValue(s[..k]))
    else None
  }

  /**
   * `Number(s)` truncated toward zero: surrounding white space is ignored,
   * blank text is 0, a sign may precede the literal, and any other text is
   * NaN (`None`).
   */
  function NumberOfString(s: string): Option<int>
  {
    var t := Text.Trim(s);
    if t == "" then Some(0)
    else if t[0] == '-' then Negated(UnsignedValue(t[1..]))
    else if t[0] == '+' then Widened(UnsignedValue(t[1..]))
    else Widened(UnsignedValue(t))
  }

  function Widened(v: Option<nat>): (r: Option<int>)
    ensures r.Some? <==> v.Some?
    ensures v.Some? ==> r.value == v.value
  {
    if v.Some? then Some(v.value) else None
  }

  function Negated(v: Option<nat>): (r: Option<int>)
    ensures r.Some? <==> v.Some?
    ensures v.Some? ==> r.value == -(v.value as int)
  {
    if v.Some? then Some(-(v.value as int)) else None
  }

  /** The decimal spelling of a natural number, as an array index key. */
  function NatToString(n: nat): (s: string)
    ensures s != "" && AllDigits(s)
    decreases n
  {
    if n < 10 then ["0123456789"[n]]
    else NatToString(n / 10) + ["0123456789"[n % 10]]
  }

  /** `String(n)` of an integer. */
  function IntToString(n: int): string
  {
    if n < 0 then "-" + NatToString(-n) else NatToString(n)
  }

  /**
   * `String(value)`: an array joins its elements with commas (`null`
   * becomes the empty string), and every object is `[object Object]`.
   */
  function JsString(j: Json): string
    decreases j
  {
    match j
    case JNull => "null"
    case JBool(b) => if b then "true" else "false"
    case JNum(n) => IntToString(n)
    case JStr(s) => s
    case JArr(items) => JoinedString(items)
    case JObj(_) => "[object Object]"
  }

  /** `items.join(",")`, where `null` becomes the empty string. */
  function JoinedString(items: seq<Json>): string
    decreases items
  {
    if items == [] then ""
    else
      var last := items[|items| - 1];
      var text := if last == JNull then "" else JsString(last);
      if |items| == 1 then text else JoinedString(items[..|items| - 1]) + "," + text
  }

  /** `Number(value)` truncated toward zero, `None` for NaN: an array or object goes through its string. */
  function ToNumber(j: Json): Option<int>
  {
    match j
    case JNull => Some(0)
    case JBool(b) => Some(if b then 1 else 0)
    case JNum(n) => Some(n)
    case JStr(s) => NumberOfString(s)
    case _ => NumberOfString(JsString(j))
  }

  /** ToUint8 of an array element: its number modulo 256, and 0 for NaN. */
  function ToUint8(j: Json): byte
  {
    match ToNumber(j)
    case Some(n) => n % 256
    case None => 0
  }

  /**
   * `new Uint8Array(value)`: an array is converted element by element, an
   * object without a `length` gives an empty array, and any other value is a
   * length: that many zero bytes, none for NaN, and a throw (`None`) where it
   * is negative.
   */
  function JsonToBytes(j: Json): (r: Option<seq<byte>>)
    ensures j.JArr? ==> r.Some? && |r.value| == |j.items|
    ensures r == None <==> IsPrimitive(j) && ToNumber(j).Some? && ToNumber(j).value < 0
  {
    match j
    case JArr(items) => Some(seq(|items|, i requires 0 <= i < |items| => ToUint8(items[i])))
    case JObj(_) => Some([])
    case _ => ZeroBytes(ToNumber(j))
  }

  /** A typed array of the given length: zero bytes, none for NaN, a throw for a negative length. */
  function ZeroBytes(length: Option<int>): (r: Option<seq<byte>>)
    ensures r == None <==> length.Some? && length.value < 0
    ensures length.Some? && length.value >= 0 ==> r == Some(seq(length.value, _ => 0))
  {
    match length
    case Some(n) => if n < 0 then None else Some(seq(n, _ => 0))
    case None => Some([])
  }

  /** A string of digits reads back as the number it spells. */
  lemma {:induction false} DigitsValueOf(n: nat)
    ensures DigitsValue(NatToString(n)) == n
    decreases n
  {
    if n >= 10 {
      DigitsValueOf(n / 10);
      var s := NatToString(n);
      assert s[..|s| - 1] == NatToString(n / 10);
    }
  }

  /** Text that neither starts nor ends with white space is its own trim. */
  lemma TrimUnspaced(s: string)
    requires s != "" && !Text.IsSpace(s[0]) && !Text.IsSpace(s[|s| - 1])
    ensures Text.Trim(s) == s
  {
    assert Text.TrimStart(s) == s;
  }

  /** The spelling of a natural number is an unsigned literal for it. */
  lemma UnsignedOfNat(m: nat)
    ensures UnsignedValue(NatToString(m)) == Some(m)
  {
    var d := NatToString(m);
    DigitsValueOf(m);
    assert d[..|d|] == d;
    assert DigitRun(d) == |d|;
  }

  lemma DigitUnspaced(c: char)
    requires IsDigit(c)
    ensures !Text.IsSpace(c)
  {
  }

  /** Text without surrounding white space is read by its first character. */
  lemma NumberOfUnspaced(t: string)
    requires t != "" && !Text.IsSpace(t[0]) && !Text.IsSpace(t[|t| - 1])
    ensures NumberOfString(t) == if t[0] == '-' then Negated(UnsignedValue(t[1..]))
      else if t[0] == '+' then Widened(UnsignedValue(t[1..]))
      else Widened(UnsignedValue(t))
  {
    TrimUnspaced(t);
  }

  lemma NumberOfNatString(m: nat)
    ensures NumberOfString(NatToString(m)) == Some(m)
  {
    var d := NatToString(m);
    UnsignedOfNat(m);
    DigitUnspaced(d[0]);
    DigitUnspaced(d[|d| - 1]);
    NumberOfUnspaced(d);
  }

  lemma NumberOfNegatedString(n: int)
    requires n < 0
    ensures NumberOfString(IntToString(n)) == Some(n)
  {
    var m: nat := -n;
    var d := NatToString(m);
    var t := IntToString(n);
    UnsignedOfNat(m);
    DigitUnspaced(d[|d| - 1]);
    assert t[1..] == d && t[0] == '-' && t[|t| - 1] == d[|d| - 1];
    NumberOfUnspaced(t);
  }

  /** `Number(String(n))` is `n` again. */
  lemma NumberOfIntString(n: int)
    ensures NumberOfString(IntToString(n)) == Some(n)
  {
    if n < 0 {
      NumberOfNegatedString(n);
    } else {
      NumberOfNatString(n);
    }
  }

  /** A numeric string or a one-number array becomes that number modulo 256, like the number itself. */
  lemma ToUint8OfNumericText(n: int)
    ensures ToUint8(JStr(IntToString(n))) == ToUint8(JNum(n)) == n % 256
    ensures ToUint8(JArr([JNum(n)])) == ToUint8(JArr([JArr([JNum(n)])])) == n % 256
  {
    NumberOfIntString(n);
    assert JoinedString([JNum(n)]) == IntToString(n);
    assert JoinedString([JArr([JNum(n)])]) == JsString(JArr([JNum(n)]));
  }

  /** A numeric string given as the whole value is a length: `new Uint8Array("16")` is sixteen zero bytes. */
  lemma BytesOfNumericText(n: int)
    ensures JsonToBytes(JStr(IntToString(n))) == if n < 0 then None else Some(seq(n, _ => 0))
  {
    NumberOfIntString(n);
  }

  /** Bytes written out as a JSON array read back as the same bytes. */
  lemma BytesRoundTrip(bs: seq<byte>)
    ensures JsonToBytes(BytesToJson(bs)) == Some(bs)
  {
    var items := BytesToJson(bs).items;
    var r := JsonToBytes(BytesToJson(bs)).value;
    assert forall i :: 0 <= i < |bs| ==> items[i] == JNum(bs[i]) && r[i] == ToUint8(items[i]) == bs[i];
    assert r == bs;
  }

  /** `Object.entries(value)`: object members, array or string positions, nothing for other values. */
  function Entries(j: Json): seq<(string, Json)>
  {
    match j
    case JObj(members) => members
    case JArr(items) => seq(|items|, i requires 0 <= i < |items| => (NatToString(i), items[i]))
    case JStr(s) => seq(|s|, i requires 0 <= i < |s| => (NatToString(i), JStr([s[i]])))
    case _ => []
  }

  /** `{ ...members, name: v }`: an existing member keeps its place and takes the new value, otherwise it is appended. */
  function SetMember(members: seq<(string, Json)>, name: string, v: Json): seq<(string, Json)>
  {
    if members == [] then [(name, v)]
    else if members[0].0 == name then [(name, v)] + members[1..]
    else [members[0]] + SetMember(members[1..], name, v)
  }

  /** After the spread the name reads back the new value, and every other name reads what it did before. */
  lemma {:induction false} SetMemberLookup(members: seq<(string, Json)>, name: string, v: Json, other: string)
    ensures Lookup(SetMember(members, name, v), name) == Some(v)
    ensures other != name ==> Lookup(SetMember(members, name, v), other) == Lookup(members, other)
  {
    if members != [] && members[0].0 != name {
      SetMemberLookup(members[1..], name, v, other);
      assert SetMember(members, name, v)[1..] == SetMember(members[1..], name, v);
    } else if members != [] {
      assert SetMember(members, name, v)[1..] == members[1..];
    }
  }
}
