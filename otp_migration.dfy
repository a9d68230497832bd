/**
 * The Google Authenticator export decoder of src/lib/otpMigration.js: a
 * hand-written reader for the Protocol Buffers wire format (base-128
 * varints, one-byte tags, skipping of wire types 0, 1, 2 and 5).
 *
 * Bytes are integers 0..255. A read past the end of the buffer yields
 * `undefined` in JavaScript, which every bit operation turns into 0; the
 * model reads 0 there. Varint values are kept as the unsigned 32-bit reading
 * of the JavaScript number built by `|=` and `<<`.
 */
module OtpMigration {
  import opened Wrappers
  import opened Bits
  import Text

  /** `buffer[i]` used in a bit operation: 0 once `i` is past the end. */
  function ByteAt(buf: seq<byte>, i: nat): byte
  {
    if i < |buf| then buf[i] else 0
  }

  // ---------------------------------------------------------------- tags

  /** `tag & 0x7` */
  function WireType(tag: byte): (w: nat)
    ensures w < 8
  {
    tag % 8
  }

  /** `tag >> 3`: a one-byte tag holds field numbers 0..31 only. */
  function FieldNumber(tag: byte): (f: nat)
    ensures f < 32
    ensures tag == 8 * f + WireType(tag)
  {
    tag / 8
  }

  // ------------------------------------------------------------- varints

  /** One past the first byte at or after `pos` whose high bit is clear. */
  function VarintEnd(buf: seq<byte>, pos: nat): (e: nat)
    ensures pos < e
    ensures ByteAt(buf, e - 1) < 128
    ensures forall i :: pos <= i < e - 1 ==> ByteAt(buf, i) >= 128
    ensures pos < |buf| ==> e <= |buf| + 1
    decreases |buf| - pos
  {
    if ByteAt(buf, pos) < 128 then pos + 1 else VarintEnd(buf, pos + 1)
  }

  /** `value |= (byte & 0x7F) << shift` over the bytes from `pos` to the varint's end. */
  function VarintFold(buf: seq<byte>, pos: nat, shift: nat, acc: nat): (v: nat)
    requires acc < TwoTo32
    ensures v < TwoTo32
    decreases |buf| - pos
  {
    var b := ByteAt(buf, pos);
    var chunk := Shl32(b % 128, shift);
    BitOr32(acc, chunk);
    var acc' := BitOr(acc, chunk);
    if b < 128 then acc' else VarintFold(buf, pos + 1, shift + 7, acc')
  }

  /** The `{ value, nextPos }` record returned by `readVarint`. */
  datatype Varint = Varint(value: nat, nextPos: nat)

  function VarintAt(buf: seq<byte>, pos: nat): Varint
  {
    Varint(VarintFold(buf, pos, 0, 0), VarintEnd(buf, pos))
  }

  /** The base-128 number spelled by the low seven bits of the `n` bytes from `pos`, least significant first. */
  function VarintSum(buf: seq<byte>, pos: nat, n: nat): nat
  {
    if n == 0 then 0
    else VarintSum(buf, pos, n - 1) + (ByteAt(buf, pos + n - 1) % 128) * Pow2(7 * (n - 1))
  }

  /** The powers of two a varint of at most five bytes shifts by. */
  lemma Pow2Shifts(k: nat)
    requires k <= 5
    ensures Pow2(7 * k) == [1, 128, 16384, 2097152, 268435456, 34359738368][k]
  {
    Pow2Values();
    if k == 5 {
      Pow2Add(28, 7);
    }
  }

  lemma {:induction false} VarintSumBound(buf: seq<byte>, pos: nat, n: nat)
    ensures VarintSum(buf, pos, n) < Pow2(7 * n)
  {
    if n > 0 {
      VarintSumBound(buf, pos, n - 1);
      var p := Pow2(7 * (n - 1));
      Pow2Add(7 * (n - 1), 7);
      Pow2Values();
      assert Pow2(7 * n) == 128 * p;
      var c := ByteAt(buf, pos + n - 1) % 128;
      MulLe(c, 127, p);
    }
  }

  lemma MulLe(a: nat, b: nat, c: nat)
    requires a <= b
    ensures a * c <= b * c
  {
  }

  /** One of the first four chunks: `<<` does not truncate and the OR adds. */
  lemma LowChunk(acc: nat, c: nat, k: nat)
    requires k <= 3 && c < 128 && acc < Pow2(7 * k)
    ensures BitOr(acc, Shl32(c, 7 * k)) == acc + c * Pow2(7 * k)
    ensures acc + c * Pow2(7 * k) < Pow2(7 * (k + 1)) <= 268435456
  {
    Pow2Shifts(k);
    Pow2Shifts(k + 1);
    var p := Pow2(7 * k);
    MulLe(c, 127, p);
    assert c * p < TwoTo32;
    assert (7 * k) % 32 == 7 * k;
    assert Shl32(c, 7 * k) == c * p;
    BitOrDisjoint(acc, c, 7 * k);
  }

  /** Adding whole multiples of 2^32 leaves the remainder modulo 2^32 alone. */
  lemma WrapMod(q: nat, y: nat)
    requires y < TwoTo32
    ensures (q * TwoTo32 + y) % TwoTo32 == y
  {
    var z := q * TwoTo32 + y;
    var d := z / TwoTo32 - q;
    assert z == (z / TwoTo32) * TwoTo32 + z % TwoTo32;
    assert d * TwoTo32 == y - z % TwoTo32;
  }

  /** The fifth chunk: `<< 28` keeps only its low four bits, which the OR adds. */
  lemma TopChunk(acc: nat, c: nat)
    requires acc < 268435456 && c < 128
    ensures BitOr(acc, Shl32(c, 28)) == (acc + c * 268435456) % TwoTo32
  {
    Pow2Values();
    var q, r := c / 16, c % 16;
    assert c * 268435456 == q * TwoTo32 + r * 268435456;
    assert 28 % 32 == 28;
    WrapMod(q, r * 268435456);
    assert Shl32(c, 28) == r * 268435456;
    assert acc + c * 268435456 == q * TwoTo32 + (acc + r * 268435456);
    WrapMod(q, acc + r * 268435456);
    BitOrDisjoint(acc, r, 28);
  }

  /** One of the first four turns of the fold: the chunk adds to the sum, which stays below 2^28. */
  lemma FoldLowStep(buf: seq<byte>, pos: nat, k: nat, acc: nat)
    requires k <= 3 && acc < TwoTo32 && acc == VarintSum(buf, pos, k)
    ensures VarintSum(buf, pos, k + 1) < 268435456
    ensures VarintFold(buf, pos + k, 7 * k, acc) ==
      if ByteAt(buf, pos + k) < 128 then VarintSum(buf, pos, k + 1)
      else VarintFold(buf, pos + k + 1, 7 * (k + 1), VarintSum(buf, pos, k + 1))
  {
    var c := ByteAt(buf, pos + k) % 128;
    VarintSumBound(buf, pos, k);
    assert VarintSum(buf, pos, k + 1) == acc + c * Pow2(7 * k);
    LowChunk(acc, c, k);
  }

  /** The fifth turn: the last byte's chunk is reduced modulo 2^32. */
  lemma FoldTopStep(buf: seq<byte>, pos: nat, acc: nat)
    requires acc < TwoTo32 && acc == VarintSum(buf, pos, 4) && ByteAt(buf, pos + 4) < 128
    ensures VarintFold(buf, pos + 4, 28, acc) == VarintSum(buf, pos, 5) % TwoTo32
  {
    var c := ByteAt(buf, pos + 4) % 128;
    VarintSumBound(buf, pos, 4);
    Pow2Shifts(4);
    assert VarintSum(buf, pos, 5) == acc + c * 268435456;
    TopChunk(acc, c);
  }

  lemma {:induction false} FoldIsSum(buf: seq<byte>, pos: nat, k: nat, acc: nat)
    requires k <= 4 && acc < TwoTo32
    requires acc == VarintSum(buf, pos, k)
    requires VarintEnd(buf, pos + k) == VarintEnd(buf, pos) <= pos + 5
    ensures VarintFold(buf, pos + k, 7 * k, acc) == VarintSum(buf, pos, VarintEnd(buf, pos) - pos) % TwoTo32
    decreases 4 - k
  {
    if k <= 3 {
      FoldLowStep(buf, pos, k, acc);
      if ByteAt(buf, pos + k) >= 128 {
        FoldIsSum(buf, pos, k + 1, VarintSum(buf, pos, k + 1));
      } else {
        assert VarintEnd(buf, pos + k) == pos + k + 1;
        WrapMod(0, VarintSum(buf, pos, k + 1));
      }
    } else {
      assert VarintEnd(buf, pos) == pos + 5;
      FoldTopStep(buf, pos, acc);
    }
  }

  /**
   * The value `readVarint` builds is the base-128 number of its bytes, reduced
   * modulo 2^32 (exact for up to four bytes); a varint of at most five bytes is
   * all a 32-bit accumulator can hold.
   */
  lemma VarintValueIsSum(buf: seq<byte>, pos: nat)
    requires VarintEnd(buf, pos) <= pos + 5
    ensures VarintAt(buf, pos).value == VarintSum(buf, pos, VarintEnd(buf, pos) - pos) % TwoTo32
    ensures VarintEnd(buf, pos) <= pos + 4 ==> VarintAt(buf, pos).value == VarintSum(buf, pos, VarintEnd(buf, pos) - pos)
  {
    FoldIsSum(buf, pos, 0, 0);
    var n := VarintEnd(buf, pos) - pos;
    if n <= 4 {
      VarintSumBound(buf, pos, n);
      Pow2Shifts(n);
      WrapMod(0, VarintSum(buf, pos, n));
    }
  }

  /** `readVarint(buffer, pos)` */
  method ReadVarint(buf: seq<byte>, pos: nat) returns (r: Varint)
    ensures r == VarintAt(buf, pos)
    ensures r.nextPos > pos && r.value < TwoTo32
  {
    var value: nat := 0;
    var shift: nat := 0;
    var p := pos;
    while true
      invariant pos <= p && value < TwoTo32
      invariant VarintEnd(buf, p) == VarintEnd(buf, pos)
      invariant VarintFold(buf, p, shift, value) == VarintFold(buf, pos, 0, 0)
      decreases |buf| - p
    {
      var b := ByteAt(buf, p);
      p := p + 1;
      var chunk := Shl32(b % 128, shift);
      BitOr32(value, chunk);
      value := BitOr(value, chunk);
      if b < 128 {
        break;
      }
      shift := shift + 7;
    }
    r := Varint(value, p);
  }

  // ---------------------------------------------------------- skipField

  /** Where `skipField` leaves `pos`; the length of a wire-type-2 field is read unsigned. */
  function SkipTo(buf: seq<byte>, pos: nat, wireType: nat): (next: nat)
    ensures pos <= next
    ensures wireType in {0, 1, 2, 5} <==> pos < next
  {
    if wireType == 0 then VarintEnd(buf, pos)
    else if wireType == 2 then VarintAt(buf, pos).nextPos + VarintAt(buf, pos).value
    else if wireType == 1 then pos + 8
    else if wireType == 5 then pos + 4
    else pos
  }

  /** `skipField(buffer, pos, wireType)` */
  method SkipField(buf: seq<byte>, pos: nat, wireType: nat) returns (next: nat)
    ensures next == SkipTo(buf, pos, wireType)
  {
    next := pos;
    if wireType == 0 {
      while ByteAt(buf, next) >= 128
        invariant pos <= next && VarintEnd(buf, next) == VarintEnd(buf, pos)
        decreases |buf| - next
      {
        next := next + 1;
      }
      next := next + 1;
    } else if wireType == 2 {
      var length := ReadVarint(buf, next);
      next := length.nextPos + length.value;
    } else if wireType == 1 {
      next := next + 8;
    } else if wireType == 5 {
      next := next + 4;
    }
  }

  // ------------------------------------------------------------- fields

  /** `buffer.slice(from, to)` on a Uint8Array: both ends are clamped to the length. */
  function Slice(buf: seq<byte>, from: nat, to: nat): (s: seq<byte>)
    ensures |s| <= |buf|
    ensures from <= to <= |buf| ==> s == buf[from..to]
  {
    var lo := if from < |buf| then from else |buf|;
    var hi := if to < |buf| then to else |buf|;
    if lo <= hi then buf[lo..hi] else []
  }

  /**
   * One field as the parse loops see it: the tag's field number and wire type,
   * the varint read after the tag (wire types 0 and 2), the slice a wire-type-2
   * field carries, and the position after the field.
   */
  datatype Field = Field(number: nat, wireType: nat, value: nat, payload: seq<byte>, end: nat)

  function FieldAt(buf: seq<byte>, pos: nat): (f: Field)
    requires pos < |buf|
    ensures f.number == FieldNumber(buf[pos]) && f.wireType == WireType(buf[pos])
    ensures f.end == SkipTo(buf, pos + 1, f.wireType)
    ensures pos < f.end
  {
    var tag := buf[pos];
    var v := VarintAt(buf, pos + 1);
    if WireType(tag) == 2 then
      Field(FieldNumber(tag), 2, v.value, Slice(buf, v.nextPos, v.nextPos + v.value), v.nextPos + v.value)
    else if WireType(tag) == 0 then
      Field(FieldNumber(tag), 0, v.value, [], v.nextPos)
    else
      Field(FieldNumber(tag), WireType(tag), 0, [], SkipTo(buf, pos + 1, WireType(tag)))
  }

  /** The fields from `pos` to the end of the buffer, in order. */
  function Fields(buf: seq<byte>, pos: nat): seq<Field>
    decreases |buf| - pos
  {
    if pos < |buf| then [FieldAt(buf, pos)] + Fields(buf, FieldAt(buf, pos).end) else []
  }

  /** Each field starts after the previous one ends: the positions strictly increase. */
  lemma {:induction false} FieldsAdvance(buf: seq<byte>, pos: nat, i: nat)
    requires i < |Fields(buf, pos)|
    ensures pos < Fields(buf, pos)[i].end
    ensures i + 1 < |Fields(buf, pos)| ==> Fields(buf, pos)[i].end < Fields(buf, pos)[i + 1].end
    decreases |buf| - pos
  {
    var f := FieldAt(buf, pos);
    if i > 0 {
      FieldsAdvance(buf, f.end, i - 1);
    } else if 1 < |Fields(buf, pos)| {
      FieldsAdvance(buf, f.end, 0);
    }
  }

  // --------------------------------------------------- parseOtpParameters

  datatype Algorithm = Invalid | Sha1 | Sha256 | Sha512 | Md5

  datatype OtpParameters = OtpParameters(
    secret: Option<seq<byte>>,
    name: Option<seq<byte>>,
    issuer: Option<seq<byte>>,
    algorithm: Algorithm,
    digits: nat,
    otpType: string)

  /**
   * The record before any field is read. The name and issuer start as the
   * literal `""`, which no `TextDecoder` produced: `None` here, until a field
   * sets their bytes.
   */
  const Defaults := OtpParameters(None, None, None, Sha1, 6, "TOTP")

  const Algos: seq<Algorithm> := [Invalid, Sha1, Sha256, Sha512, Md5]

  /** `algos[val.value] || "SHA1"` */
  function AlgorithmOf(v: nat): (a: Algorithm)
    ensures a == Invalid <==> v == 0
    ensures a == Sha1 <==> v == 1 || v >= 5
    ensures 2 <= v <= 4 ==> a == [Sha256, Sha512, Md5][v - 2]
  {
    if v < |Algos| then Algos[v] else Sha1
  }

  /** `val.value === 1 ? 6 : (val.value === 2 ? 8 : 6)` */
  function DigitsOf(v: nat): (d: nat)
    ensures d == 8 <==> v == 2
    ensures d == 6 <==> v != 2
  {
    if v == 1 then 6 else if v == 2 then 8 else 6
  }

  /** What one field does to the record being built. */
  function Apply(p: OtpParameters, f: Field): OtpParameters
  {
    if f.number == 1 && f.wireType == 2 then p.(secret := Some(f.payload))
    else if f.number == 2 && f.wireType == 2 then p.(name := Some(f.payload))
    else if f.number == 3 && f.wireType == 2 then p.(issuer := Some(f.payload))
    else if f.number == 4 && f.wireType == 0 then p.(algorithm := AlgorithmOf(f.value))
    else if f.number == 5 && f.wireType == 0 then p.(digits := DigitsOf(f.value))
    else p
  }

  function ApplyAll(p: OtpParameters, fs: seq<Field>): OtpParameters
    decreases |fs|
  {
    if fs == [] then p else ApplyAll(Apply(p, fs[0]), fs[1..])
  }

  /** The record `parseOtpParameters` returns for a buffer. */
  function OtpParametersOf(buf: seq<byte>): OtpParameters
  {
    ApplyAll(Defaults, Fields(buf, 0))
  }

  /** The members of the record and the field that sets each. */
  datatype Member = SecretMember | NameMember | IssuerMember | AlgorithmMember | DigitsMember

  predicate Sets(f: Field, m: Member)
  {
    match m
    case SecretMember => f.number == 1 && f.wireType == 2
    case NameMember => f.number == 2 && f.wireType == 2
    case IssuerMember => f.number == 3 && f.wireType == 2
    case AlgorithmMember => f.number == 4 && f.wireType == 0
    case DigitsMember => f.number == 5 && f.wireType == 0
  }

  predicate Agree(p: OtpParameters, q: OtpParameters, m: Member)
  {
    match m
    case SecretMember => p.secret == q.secret
    case NameMember => p.name == q.name
    case IssuerMember => p.issuer == q.issuer
    case AlgorithmMember => p.algorithm == q.algorithm
    case DigitsMember => p.digits == q.digits
  }

  lemma {:induction false} ApplyAllAppend(p: OtpParameters, a: seq<Field>, b: seq<Field>)
    ensures ApplyAll(p, a + b) == ApplyAll(ApplyAll(p, a), b)
    decreases |a|
  {
    if a == [] {
      assert a + b == b;
    } else {
      assert (a + b)[0] == a[0] && (a + b)[1..] == a[1..] + b;
      ApplyAllAppend(Apply(p, a[0]), a[1..], b);
    }
  }

  /** A member no field sets keeps its value; the `type` member is never set at all. */
  lemma {:induction false} Untouched(p: OtpParameters, fs: seq<Field>, m: Member)
    requires forall i :: 0 <= i < |fs| ==> !Sets(fs[i], m)
    ensures Agree(ApplyAll(p, fs), p, m)
    ensures ApplyAll(p, fs).otpType == p.otpType
    decreases |fs|
  {
    if fs != [] {
      assert !Sets(fs[0], m);
      Untouched(Apply(p, fs[0]), fs[1..], m);
    }
  }

  /** A member takes its value from its last occurrence: whatever came before is overwritten. */
  lemma LastOccurrenceWins(p: OtpParameters, before: seq<Field>, f: Field, after: seq<Field>, m: Member)
    requires Sets(f, m)
    requires forall i :: 0 <= i < |after| ==> !Sets(after[i], m)
    ensures Agree(ApplyAll(p, before + [f] + after), Apply(Defaults, f), m)
  {
    ApplyAllAppend(p, before + [f], after);
    ApplyAllAppend(p, before, [f]);
    var q := ApplyAll(p, before);
    assert ApplyAll(q, [f]) == Apply(q, f);
    Untouched(Apply(q, f), after, m);
  }

  /** With no field for a member, the parsed record keeps that member's default. */
  lemma DefaultsWhenAbsent(buf: seq<byte>, m: Member)
    requires forall i :: 0 <= i < |Fields(buf, 0)| ==> !Sets(Fields(buf, 0)[i], m)
    ensures Agree(OtpParametersOf(buf), Defaults, m)
    ensures OtpParametersOf(buf).otpType == "TOTP"
  {
    Untouched(Defaults, Fields(buf, 0), m);
  }

  /** One turn of the `parseOtpParameters` loop: the field that starts at `start` applied to the record. */
  method ParamsField(buf: seq<byte>, start: nat, params: OtpParameters) returns (next: OtpParameters, pos: nat)
    requires start < |buf|
    ensures next == Apply(params, FieldAt(buf, start))
    ensures pos == FieldAt(buf, start).end
  {
    var tag := buf[start];
    pos := start + 1;
    var wireType := WireType(tag);
    var fieldNumber := FieldNumber(tag);
    next := params;
    if fieldNumber == 1 && wireType == 2 {
      var length := ReadVarint(buf, pos);
      pos := length.nextPos;
      next := params.(secret := Some(Slice(buf, pos, pos + length.value)));
      pos := pos + length.value;
    } else if fieldNumber == 2 && wireType == 2 {
      var length := ReadVarint(buf, pos);
      pos := length.nextPos;
      next := params.(name := Some(Slice(buf, pos, pos + length.value)));
      pos := pos + length.value;
    } else if fieldNumber == 3 && wireType == 2 {
      var length := ReadVarint(buf, pos);
      pos := length.nextPos;
      next := params.(issuer := Some(Slice(buf, pos, pos + length.value)));
      pos := pos + length.value;
    } else if fieldNumber == 4 && wireType == 0 {
      var val := ReadVarint(buf, pos);
      pos := val.nextPos;
      next := params.(algorithm := AlgorithmOf(val.value));
    } else if fieldNumber == 5 && wireType == 0 {
      var val := ReadVarint(buf, pos);
      pos := val.nextPos;
      next := params.(digits := DigitsOf(val.value));
    } else {
      pos := SkipField(buf, pos, wireType);
    }
  }

  /** `parseOtpParameters(buffer)` */
  method ParseOtpParameters(buf: seq<byte>) returns (params: OtpParameters)
    ensures params == OtpParametersOf(buf)
  {
    params := Defaults;
    var pos: nat := 0;
    while pos < |buf|
      invariant ApplyAll(params, Fields(buf, pos)) == OtpParametersOf(buf)
      decreases |buf| - pos
    {
      params, pos := ParamsField(buf, pos, params);
    }
  }

  // ------------------------------------------------ parseMigrationPayload

  /** A field-1, wire-type-2 entry of the payload: one exported account. */
  predicate IsEntry(f: Field)
  {
    f.number == 1 && f.wireType == 2
  }

  /** The parameter records of the entries among `fs`, in order. */
  function Entries(fs: seq<Field>): seq<OtpParameters>
    decreases |fs|
  {
    if fs == [] then []
    else (if IsEntry(fs[0]) then [OtpParametersOf(fs[0].payload)] else []) + Entries(fs[1..])
  }

  /** One record per entry, in occurrence order; every other field contributes nothing. */
  lemma {:induction false} EntriesAppend(a: seq<Field>, b: seq<Field>)
    ensures Entries(a + b) == Entries(a) + Entries(b)
    ensures |a| == 1 ==> Entries(a) == if IsEntry(a[0]) then [OtpParametersOf(a[0].payload)] else []
    decreases |a|
  {
    if a == [] {
      assert a + b == b;
    } else {
      assert (a + b)[0] == a[0] && (a + b)[1..] == a[1..] + b;
      EntriesAppend(a[1..], b);
      assert a == [a[0]] + a[1..];
    }
  }

  /** The records `parseMigrationPayload` collects before converting them to URIs. */
  function MigrationEntries(buf: seq<byte>): seq<OtpParameters>
  {
    Entries(Fields(buf, 0))
  }

  /** One turn of the payload loop: the field at `pos` contributes at most one record. */
  lemma PayloadStep(buf: seq<byte>, pos: nat)
    requires pos < |buf|
    ensures Entries(Fields(buf, pos)) ==
      (if IsEntry(FieldAt(buf, pos)) then [OtpParametersOf(FieldAt(buf, pos).payload)] else [])
      + Entries(Fields(buf, FieldAt(buf, pos).end))
  {
    var f := FieldAt(buf, pos);
    assert Fields(buf, pos) == [f] + Fields(buf, f.end);
    EntriesAppend([f], Fields(buf, f.end));
  }

  /** One turn of the payload loop: the entry's record, if the field is an entry, and the position after the field. */
  method PayloadField(buf: seq<byte>, start: nat) returns (entry: Option<OtpParameters>, pos: nat)
    requires start < |buf|
    ensures start < pos
    ensures Entries(Fields(buf, start)) == (if entry.Some? then [entry.value] else []) + Entries(Fields(buf, pos))
  {
    ghost var f := FieldAt(buf, start);
    PayloadStep(buf, start);
    pos := start;
    var tag := buf[pos];
    pos := pos + 1;
    var wireType := WireType(tag);
    var fieldNumber := FieldNumber(tag);
    if fieldNumber == 1 && wireType == 2 {
      var length := ReadVarint(buf, pos);
      pos := length.nextPos;
      var otpBuffer := Slice(buf, pos, pos + length.value);
      assert otpBuffer == f.payload;
      var params := ParseOtpParameters(otpBuffer);
      entry := Some(params);
      pos := pos + length.value;
    } else {
      entry := None;
      pos := SkipField(buf, pos, wireType);
    }
    assert pos == f.end;
    assert entry == if IsEntry(f) then Some(OtpParametersOf(f.payload)) else None;
  }


  /** `parseMigrationPayload(buffer)`: the records of the payload, converted into URIs. */
  method ParseMigrationPayload(buf: seq<byte>, conv: Converter) returns (uris: seq<string>)
    ensures uris == ConvertedUris(conv, MigrationEntries(buf))
  {
    var otps := [];
    var pos: nat := 0;
    while pos < |buf|
      invariant otps + Entries(Fields(buf, pos)) == MigrationEntries(buf)
      decreases |buf| - pos
    {
      ghost var done, rest := otps, Entries(Fields(buf, pos));
      var entry, next := PayloadField(buf, pos);
      ghost var found := if entry.Some? then [entry.value] else [];
      if entry.Some? {
        otps := otps + [entry.value];
      }
      pos := next;
      assert otps == done + found;
      AppendAssoc(done, found, Entries(Fields(buf, pos)));
    }
    assert otps == MigrationEntries(buf);
    uris := ConvertedUris(conv, otps);
  }

  // ------------------------------------------- the conversion into URIs

  /** The options `parseMigrationPayload` passes to `new OTPAuth.TOTP({...})` for one record. */
  datatype TotpArgs = TotpArgs(issuer: string, account: string, algorithm: string, digits: nat, period: nat,
                               secret: Option<seq<byte>>)

  /**
   * The foreign pieces of the conversion: `TextDecoder.decode` of the name
   * and issuer bytes, and `new OTPAuth.TOTP(options).toString()` with its
   * `OTPAuth.Secret`, `None` where either constructor throws.
   */
  datatype Converter = Converter(decode: seq<byte> -> string, totp: TotpArgs -> Option<string>)

  const UnknownIssuer := "Unknown"
  const DefaultLabel := "Account"
  const MigratedPeriod := 30

  /** The name the `otpauth` library knows each algorithm by. */
  function AlgorithmName(a: Algorithm): (n: string)
    ensures n != ""
  {
    match a
    case Invalid => "INVALID"
    case Sha1 => "SHA1"
    case Sha256 => "SHA256"
    case Sha512 => "SHA512"
    case Md5 => "MD5"
  }

  /**
   * The options of one record: `issuer || name.split(":")[0] || "Unknown"`,
   * `name || "Account"`, the algorithm and digits (never falsy, so their
   * fallbacks never apply), a 30-second period and the secret bytes.
   */
  function TotpArgsOf(decode: seq<byte> -> string, params: OtpParameters): (a: TotpArgs)
    ensures a.issuer != "" && a.account != "" && a.digits > 0
  {
    var name := Decoded(decode, params.name);
    var issuer := Decoded(decode, params.issuer);
    var beforeColon := Text.Split(name, ':')[0];
    TotpArgs(
      if issuer != "" then issuer else if beforeColon != "" then beforeColon else UnknownIssuer,
      if name != "" then name else DefaultLabel,
      AlgorithmName(params.algorithm),
      if params.digits != 0 then params.digits else 6,
      MigratedPeriod,
      params.secret)
  }

  /** A member's text: the decoded bytes a field set, or the default `""`. */
  function Decoded(decode: seq<byte> -> string, text: Option<seq<byte>>): (t: string)
    ensures text == None ==> t == ""
    ensures text.Some? ==> t == decode(text.value)
  {
    if text.Some? then decode(text.value) else ""
  }

  /** Without an issuer the account is credited to the part of the name before its first colon, or to "Unknown". */
  lemma IssuerFromName(decode: seq<byte> -> string, params: OtpParameters)
    requires Decoded(decode, params.issuer) == ""
    ensures var issuer := TotpArgsOf(decode, params).issuer;
      issuer == UnknownIssuer || (':' !in issuer && issuer <= Decoded(decode, params.name))
  {
    var name := Decoded(decode, params.name);
    Text.SplitPrefix(name, ':', 1);
    assert Text.Join(Text.Split(name, ':')[..1], ':') == Text.Split(name, ':')[0];
  }

  /** Conversion of one record: its URI, or `None` where the constructor throws. */
  function Converted(conv: Converter, params: OtpParameters): Option<string>
  {
    conv.totp(TotpArgsOf(conv.decode, params))
  }

  /**
   * `otps.map(convert).filter(uri => uri !== null)`: a record whose
   * conversion throws is dropped, and the others keep their order.
   */
  function ConvertedUris(conv: Converter, records: seq<OtpParameters>): (uris: seq<string>)
    ensures |uris| <= |records|
    decreases |records|
  {
    if records == [] then []
    else
      var last := Converted(conv, records[|records| - 1]);
      ConvertedUris(conv, records[..|records| - 1]) + (if last.Some? then [last.value] else [])
  }

  /** Converting is a filter: it distributes over concatenation. */
  lemma {:induction false} ConvertedAppend(conv: Converter, a: seq<OtpParameters>, b: seq<OtpParameters>)
    ensures ConvertedUris(conv, a + b) == ConvertedUris(conv, a) + ConvertedUris(conv, b)
    decreases |b|
  {
    if b == [] {
      assert a + b == a;
    } else {
      assert (a + b)[..|a + b| - 1] == a + b[..|b| - 1];
      assert (a + b)[|a + b| - 1] == b[|b| - 1];
      ConvertedAppend(conv, a, b[..|b| - 1]);
    }
  }

  /** When every conversion succeeds, each record gives its URI in its place. */
  lemma {:induction false} AllConverted(conv: Converter, records: seq<OtpParameters>)
    requires forall i :: 0 <= i < |records| ==> Converted(conv, records[i]).Some?
    ensures |ConvertedUris(conv, records)| == |records|
    ensures forall i :: 0 <= i < |records| ==> ConvertedUris(conv, records)[i] == Converted(conv, records[i]).value
    decreases |records|
  {
    if records != [] {
      var init := records[..|records| - 1];
      assert forall i :: 0 <= i < |init| ==> init[i] == records[i];
      AllConverted(conv, init);
      var last := Converted(conv, records[|records| - 1]);
      var uris := ConvertedUris(conv, records);
      assert last.Some? && uris == ConvertedUris(conv, init) + [last.value];
      forall i | 0 <= i < |records|
        ensures uris[i] == Converted(conv, records[i]).value
      {
        if i < |init| {
          assert records[i] == init[i];
        }
      }
    }
  }

  /** When every conversion throws, no URI is left, however many records there were. */
  lemma {:induction false} NoneConverted(conv: Converter, records: seq<OtpParameters>)
    requires forall i :: 0 <= i < |records| ==> Converted(conv, records[i]).None?
    ensures ConvertedUris(conv, records) == []
    decreases |records|
  {
    if records != [] {
      var init := records[..|records| - 1];
      assert forall i :: 0 <= i < |init| ==> init[i] == records[i];
      NoneConverted(conv, init);
    }
  }

  // --------------------------------------------------- decodeMigrationUri

  const MigrationPrefix := "otpauth-migration://"

  datatype DecodeError = InvalidUri | NoData | BadBase64

  /** `buffer[i] = binary.charCodeAt(i)` into a Uint8Array, which keeps the low eight bits. */
  function BytesOf(binary: string): (buf: seq<byte>)
    ensures |buf| == |binary|
    ensures forall i :: 0 <= i < |binary| ==> buf[i] == (binary[i] as int) % 256
  {
    seq(|binary|, i requires 0 <= i < |binary| => (binary[i] as int) % 256)
  }

  /** The `for` loop filling the buffer. */
  method FillBuffer(binary: string) returns (buffer: array<byte>)
    ensures buffer.Length == |binary|
    ensures buffer[..] == BytesOf(binary)
  {
    buffer := new byte[|binary|];
    for i := 0 to |binary|
      invariant forall j :: 0 <= j < i ==> buffer[j] == (binary[j] as int) % 256
    {
      buffer[i] := (binary[i] as int) % 256;
    }
  }

  /**
   * `decodeMigrationUri(uri)`. `data` is what
   * `new URL(uri).searchParams.get("data")` returns and `atob` the Base64
   * decoder (RFC 4648 section 4), `None` where it throws.
   */
  method DecodeMigrationUri(uri: string, data: Option<string>, atob: string -> Option<string>, conv: Converter)
    returns (r: Result<seq<string>, DecodeError>)
    ensures !(MigrationPrefix <= uri) ==> r == Err(InvalidUri)
    ensures MigrationPrefix <= uri && (data == None || data == Some("")) ==> r == Err(NoData)
    ensures MigrationPrefix <= uri && data.Some? && data.value != "" && atob(data.value).None? ==> r == Err(BadBase64)
    ensures r.Ok? <==> MigrationPrefix <= uri && data.Some? && data.value != "" && atob(data.value).Some?
    ensures r.Ok? ==> r.value == ConvertedUris(conv, MigrationEntries(BytesOf(atob(data.value).value)))
  {
    if !(MigrationPrefix <= uri) {
      return Err(InvalidUri);
    }
    if data == None || data == Some("") {
      return Err(NoData);
    }
    var binary := atob(data.value);
    if binary == None {
      return Err(BadBase64);
    }
    var buffer := FillBuffer(binary.value);
    var uris := ParseMigrationPayload(buffer[..], conv);
    return Ok(uris);
  }

  // ----------------------------------------------- the signed length read

  /**
   * Where the source puts `pos` after the field at `pos`: for wire type 2,
   * whatever the field number, `length.nextPos + length.value` with
   * `length.value` the signed 32-bit number `|=` leaves. The payload loop
   * (its records), the record loop (secret, name and issuer) and `skipField`
   * (every other length-delimited field) all compute it so, and a length with
   * bit 31 set moves `pos` backwards.
   */
  function FieldEndAsWritten(buf: seq<byte>, pos: nat): int
    requires pos < |buf|
  {
    var wt := WireType(buf[pos]);
    var v := VarintAt(buf, pos + 1);
    if wt == 2 then v.nextPos + Int32(v.value) else SkipTo(buf, pos + 1, wt)
  }

  /**
   * A buffer that starts with a length-delimited field of any number whose
   * length, as written, is -6: the tag, then FA FF FF FF 0F.
   */
  predicate StartsLooping(buf: seq<byte>)
  {
    |buf| >= 6 && WireType(buf[0]) == 2 && buf[1] == 0xFA && buf[2] == 0xFF
    && buf[3] == 0xFF && buf[4] == 0xFF && buf[5] == 0x0F
  }

  /**
   * As written, the loop that reads such a buffer returns to position 0
   * after its first field and never terminates: `parseMigrationPayload` on
   * tag 0A pushes a record every round, `parseOtpParameters` on tag 0A, 12
   * or 1A sets the secret, name or issuer every round, and either loop on any
   * other wire-type-2 tag goes round through `skipField`. Read unsigned, the
   * same field ends at 2^32, past any buffer.
   */
  lemma SignedLengthLoops(buf: seq<byte>)
    requires StartsLooping(buf)
    ensures FieldEndAsWritten(buf, 0) == 0
    ensures FieldAt(buf, 0).end == TwoTo32
  {
    LoopingLength(buf);
  }

  /**
   * Any negative length, as written, puts `pos` before the end of its own
   * length varint. Only some such lengths bring `pos` back to a field
   * already read, as -6 after a tag at 0 does.
   */
  lemma NegativeLengthMovesBack(buf: seq<byte>, pos: nat)
    requires pos < |buf| && WireType(buf[pos]) == 2
    requires Int32(VarintAt(buf, pos + 1).value) < 0
    ensures FieldEndAsWritten(buf, pos) < VarintAt(buf, pos + 1).nextPos
  { }

  /**
   * Not every negative length loops: after a wire-type-2 tag at 0 and the
   * bytes FD FF FF FF 0F, the length reads as -3, so `pos` goes to 3, inside
   * the length varint, and the bytes from there on are read as fields of
   * their own. On `0A FD FF FF FF 0F` those are the one-byte wire-type-7
   * tags FF, FF and 0F, and the payload loop ends.
   */
  lemma ShortNegativeLength(buf: seq<byte>)
    requires |buf| >= 6 && WireType(buf[0]) == 2 && buf[1] == 0xFD && buf[2] == 0xFF
      && buf[3] == 0xFF && buf[4] == 0xFF && buf[5] == 0x0F
    ensures FieldEndAsWritten(buf, 0) == 3
  {
    assert ByteAt(buf, 1) == 0xFD && ByteAt(buf, 2) == 0xFF && ByteAt(buf, 3) == 0xFF;
    assert ByteAt(buf, 4) == 0xFF && ByteAt(buf, 5) == 0x0F;
    assert VarintEnd(buf, 5) == 6;
    assert VarintEnd(buf, 4) == 6;
    assert VarintEnd(buf, 3) == 6;
    assert VarintEnd(buf, 2) == 6;
    assert VarintEnd(buf, 1) == 6;
    VarintValueIsSum(buf, 1);
    Pow2Shifts(1);
    Pow2Shifts(2);
    Pow2Shifts(3);
    Pow2Shifts(4);
    assert VarintSum(buf, 1, 1) == 0x7D;
    assert VarintSum(buf, 1, 2) == 0x7D + 0x7F * 128;
    assert VarintSum(buf, 1, 3) == 0x7D + 0x7F * 128 + 0x7F * 16384;
    assert VarintSum(buf, 1, 4) == 0x7D + 0x7F * 128 + 0x7F * 16384 + 0x7F * 2097152;
    assert VarintSum(buf, 1, 5) == 0x7D + 0x7F * 128 + 0x7F * 16384 + 0x7F * 2097152 + 0x0F * 268435456;
    assert VarintAt(buf, 1) == Varint(0xFFFF_FFFD, 6);
  }

  /** The length varint: five bytes spelling 2^32 - 6. */
  lemma LoopingLength(buf: seq<byte>)
    requires StartsLooping(buf)
    ensures VarintAt(buf, 1) == Varint(0xFFFF_FFFA, 6)
  {
    assert ByteAt(buf, 1) == 0xFA && ByteAt(buf, 2) == 0xFF && ByteAt(buf, 3) == 0xFF;
    assert ByteAt(buf, 4) == 0xFF && ByteAt(buf, 5) == 0x0F;
    assert VarintEnd(buf, 5) == 6;
    assert VarintEnd(buf, 4) == 6;
    assert VarintEnd(buf, 3) == 6;
    assert VarintEnd(buf, 2) == 6;
    assert VarintEnd(buf, 1) == 6;
    VarintValueIsSum(buf, 1);
    Pow2Shifts(1);
    Pow2Shifts(2);
    Pow2Shifts(3);
    Pow2Shifts(4);
    assert VarintSum(buf, 1, 1) == 0x7A;
    assert VarintSum(buf, 1, 2) == 0x7A + 0x7F * 128;
    assert VarintSum(buf, 1, 3) == 0x7A + 0x7F * 128 + 0x7F * 16384;
    assert VarintSum(buf, 1, 4) == 0x7A + 0x7F * 128 + 0x7F * 16384 + 0x7F * 2097152;
    assert VarintSum(buf, 1, 5) == 0x7A + 0x7F * 128 + 0x7F * 16384 + 0x7F * 2097152 + 0x0F * 268435456;
  }
}
