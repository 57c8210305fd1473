/**
 * The form body of a signed request: fields percent-encoded (section 2.1 of RFC 3986, unreserved
 * set of section 2.3), joined with `=` and `&` into one pre-sized buffer.
 */
module FormEncoding {
  import opened Util

  type byte = b: int | 0 <= b < 256

  datatype Field = Field(key: seq<byte>, value: seq<byte>)

  const PERCENT: byte := 37
  const AMPERSAND: byte := 38
  const EQUALS: byte := 61
  const SEPARATORS_PER_FIELD: nat := 2

  predicate IsUnreserved(b: byte) {
    || 48 <= b <= 57 || 65 <= b <= 90 || 97 <= b <= 122   // digits and letters
    || b == 45 || b == 95 || b == 46 || b == 126          // - _ . ~
  }

  function HexUpper(nibble: nat): byte
    requires nibble < 16
  {
    if nibble < 10 then 48 + nibble else 55 + nibble
  }

  function EncodeByte(b: byte): seq<byte> {
    if IsUnreserved(b) then [b] else [PERCENT, HexUpper(b / 16), HexUpper(b % 16)]
  }

  function Encode(s: seq<byte>): seq<byte> {
    if s == [] then [] else EncodeByte(s[0]) + Encode(s[1..])
  }

  function EncodedLen(s: seq<byte>): nat {
    if s == [] then 0 else (if IsUnreserved(s[0]) then 1 else 3) + EncodedLen(s[1..])
  }

  function EncodeField(f: Field): seq<byte> {
    Encode(f.key) + [EQUALS] + Encode(f.value)
  }

  function EncodeForm(fields: seq<Field>): seq<byte> {
    if fields == [] then []
    else EncodeField(fields[0]) + if |fields| == 1 then [] else [AMPERSAND] + EncodeForm(fields[1..])
  }

  /** The capacity reserved up front. */
  function Capacity(fields: seq<Field>): nat {
    if fields == [] then 0
    else EncodedLen(fields[0].key) + EncodedLen(fields[0].value) + SEPARATORS_PER_FIELD + Capacity(fields[1..])
  }

  // ---------------------------------------------------------------- decoding

  function HexValue(b: byte): Option<nat> {
    if 48 <= b <= 57 then Some(b - 48)
    else if 65 <= b <= 70 then Some(b - 55)
    else if 97 <= b <= 102 then Some(b - 87)
    else None
  }

  /** Percent-decoding; a truncated or non-hexadecimal escape has no decoding. */
  function Decode(s: seq<byte>): Option<seq<byte>> {
    if s == [] then Some([])
    else if s[0] != PERCENT then
      var rest := Decode(s[1..]);
      if rest.None? then None else Some([s[0]] + rest.value)
    else if |s| < 3 || HexValue(s[1]).None? || HexValue(s[2]).None? then None
    else
      var rest := Decode(s[3..]);
      if rest.None? then None else Some([HexValue(s[1]).value * 16 + HexValue(s[2]).value] + rest.value)
  }

  function DecodeField(s: seq<byte>): Option<Field> {
    var i := Find(s, EQUALS);
    if i == |s| then None
    else
      var key, value := Decode(s[..i]), Decode(s[i + 1..]);
      if key.None? || value.None? then None else Some(Field(key.value, value.value))
  }

  /** Splits on `&`, then each field on its first `=`, then undoes the percent-encoding. */
  function DecodeFields(s: seq<byte>): Option<seq<Field>>
    decreases |s|
  {
    var i := Find(s, AMPERSAND);
    var field := DecodeField(s[..i]);
    if field.None? then None
    else if i == |s| then Some([field.value])
    else
      var rest := DecodeFields(s[i + 1..]);
      if rest.None? then None else Some([field.value] + rest.value)
  }

  function DecodeForm(s: seq<byte>): Option<seq<Field>> {
    if s == [] then Some([]) else DecodeFields(s)
  }

  // ---------------------------------------------------------------- round trip

  lemma DecodeEncodedByte(b: byte, rest: seq<byte>)
    requires Decode(rest).Some?
    ensures Decode(EncodeByte(b) + rest) == Some([b] + Decode(rest).value)
  {
    var s := EncodeByte(b) + rest;
    if IsUnreserved(b) {
      assert s[0] == b && s[1..] == rest;
    } else {
      assert HexValue(HexUpper(b / 16)) == Some(b / 16) && HexValue(HexUpper(b % 16)) == Some(b % 16);
      assert s[0] == PERCENT && s[1] == HexUpper(b / 16) && s[2] == HexUpper(b % 16) && s[3..] == rest;
      assert b / 16 * 16 + b % 16 == b;
    }
  }

  lemma {:induction false} DecodeEncoded(s: seq<byte>)
    ensures Decode(Encode(s)) == Some(s)
    decreases |s|
  {
    if s != [] {
      DecodeEncoded(s[1..]);
      DecodeEncodedByte(s[0], Encode(s[1..]));
      assert s == [s[0]] + s[1..];
    }
  }

  /** No encoded string contains a separator. */
  lemma {:induction false} EncodedHasNoSeparator(s: seq<byte>)
    ensures AMPERSAND !in Encode(s) && EQUALS !in Encode(s)
    decreases |s|
  {
    if s != [] { EncodedHasNoSeparator(s[1..]); }
  }

  lemma {:induction false} FindAfter(a: seq<byte>, c: byte, b: seq<byte>)
    requires c !in a && (b == [] || b[0] == c)
    ensures Find(a + b, c) == |a|
    decreases |a|
  {
    if a == [] {
      assert a + b == b;
    } else {
      assert (a + b)[1..] == a[1..] + b;
      FindAfter(a[1..], c, b);
    }
  }

  /** A string is cut at the first separator into what was joined there. */
  lemma SplitsAt(a: seq<byte>, c: byte, b: seq<byte>)
    requires c !in a
    ensures var s := a + ([c] + b);
            Find(s, c) == |a| < |s| && s[..|a|] == a && s[|a| + 1..] == b
  {
    FindAfter(a, c, [c] + b);
  }

  lemma FieldHasNoSeparator(f: Field)
    ensures AMPERSAND !in EncodeField(f)
  {
    EncodedHasNoSeparator(f.key);
    EncodedHasNoSeparator(f.value);
  }

  lemma DecodeEncodedField(f: Field)
    ensures DecodeField(EncodeField(f)) == Some(f)
  {
    var key, value := Encode(f.key), Encode(f.value);
    assert EncodeField(f) == key + ([EQUALS] + value);
    EncodedHasNoSeparator(f.key);
    SplitsAt(key, EQUALS, value);
    assert Decode(key) == Some(f.key) by { DecodeEncoded(f.key); }
    assert Decode(value) == Some(f.value) by { DecodeEncoded(f.value); }
  }

  lemma DecodeLastField(f: Field)
    ensures DecodeFields(EncodeField(f)) == Some([f])
  {
    var head := EncodeField(f);
    DecodeEncodedField(f);
    FieldHasNoSeparator(f);
    assert head == head + [];
    FindAfter(head, AMPERSAND, []);
    assert head[..|head|] == head;
  }

  /** Decoding a string that is cut at its first `&`. */
  lemma DecodeCut(s: seq<byte>, head: seq<byte>, tail: seq<byte>)
    requires Find(s, AMPERSAND) == |head| < |s| && s[..|head|] == head && s[|head| + 1..] == tail
    requires DecodeField(head).Some? && DecodeFields(tail).Some?
    ensures DecodeFields(s) == Some([DecodeField(head).value] + DecodeFields(tail).value)
  {
  }

  lemma DecodeFirstField(f: Field, tail: seq<byte>)
    requires DecodeFields(tail).Some?
    ensures DecodeFields(EncodeField(f) + ([AMPERSAND] + tail)) == Some([f] + DecodeFields(tail).value)
  {
    var head := EncodeField(f);
    assert AMPERSAND !in head by { FieldHasNoSeparator(f); }
    assert DecodeField(head) == Some(f) by { DecodeEncodedField(f); }
    SplitsAt(head, AMPERSAND, tail);
    DecodeCut(head + ([AMPERSAND] + tail), head, tail);
  }

  lemma {:induction false} DecodeFieldList(fields: seq<Field>)
    requires fields != []
    ensures EncodeForm(fields) != [] && DecodeFields(EncodeForm(fields)) == Some(fields)
    decreases |fields|
  {
    if |fields| == 1 {
      DecodeLastField(fields[0]);
      assert fields == [fields[0]] && EncodeForm(fields) == EncodeField(fields[0]);
    } else {
      DecodeFieldList(fields[1..]);
      DecodeFirstField(fields[0], EncodeForm(fields[1..]));
      assert fields == [fields[0]] + fields[1..];
    }
  }

  /** Round trip: every list of fields is recovered from its encoded form. */
  lemma FormRoundTrip(fields: seq<Field>)
    ensures DecodeForm(EncodeForm(fields)) == Some(fields)
  {
    if fields != [] { DecodeFieldList(fields); }
  }

  /** Two field lists with the same body are the same list. */
  lemma EncodingIsInjective(a: seq<Field>, b: seq<Field>)
    requires EncodeForm(a) == EncodeForm(b)
    ensures a == b
  {
    FormRoundTrip(a);
    FormRoundTrip(b);
  }

  // ---------------------------------------------------------------- what the body is made of

  /** Section 2.3 of RFC 3986, letter by letter. */
  predicate Plain(b: byte) {
    var c := b as char;
    'A' <= c <= 'Z' || 'a' <= c <= 'z' || '0' <= c <= '9' || c == '-' || c == '.' || c == '_' || c == '~'
  }

  /** Section 2.1 of RFC 3986: escapes are written with upper-case digits. */
  predicate UpperHex(b: byte) {
    var c := b as char;
    '0' <= c <= '9' || 'A' <= c <= 'F'
  }

  /** Plain bytes as they are, and everything else as an escape. */
  predicate Escaped(s: seq<byte>) {
    s == [] || (Plain(s[0]) && Escaped(s[1..]))
    || (|s| >= 3 && s[0] as char == '%' && UpperHex(s[1]) && UpperHex(s[2]) && Escaped(s[3..]))
  }

  /** A byte stays as it is exactly when it is plain; else it becomes its escape. */
  lemma BytesEncode(b: byte)
    ensures EncodeByte(b) == [b] <==> Plain(b)
    ensures !Plain(b) ==>
              var e := EncodeByte(b);
              |e| == 3 && e[0] as char == '%' && UpperHex(e[1]) && UpperHex(e[2])
              && HexValue(e[1]).value * 16 + HexValue(e[2]).value == b
  {
    assert b / 16 * 16 + b % 16 == b;
  }

  lemma {:induction false} EncodedIsEscaped(s: seq<byte>)
    ensures Escaped(Encode(s))
    decreases |s|
  {
    if s != [] {
      var e, rest := Encode(s), Encode(s[1..]);
      BytesEncode(s[0]);
      EncodedIsEscaped(s[1..]);
      if Plain(s[0]) { assert e[1..] == rest; } else { assert e[3..] == rest; }
    }
  }

  /** A field as it may be written: both parts escaped, and decoding to it. */
  predicate FieldText(key: seq<byte>, value: seq<byte>, f: Field) {
    Escaped(key) && Escaped(value) && Decode(key) == Some(f.key) && Decode(value) == Some(f.value)
  }

  function Joined(key: seq<byte>, value: seq<byte>, rest: seq<byte>): seq<byte> {
    key + ['=' as byte] + value + rest
  }

  /** The body of a form: one `=` between each key and its value, one `&` before each field but the first. */
  ghost predicate FormOf(s: seq<byte>, fields: seq<Field>)
    decreases |fields|
  {
    if fields == [] then s == []
    else exists key, value, rest ::
      FieldText(key, value, fields[0]) && s == Joined(key, value, rest) && RestOf(rest, fields)
  }

  ghost predicate RestOf(rest: seq<byte>, fields: seq<Field>)
    requires fields != []
    decreases |fields|, 0
  {
    if |fields| == 1 then rest == [] else rest != [] && rest[0] == '&' as byte && FormOf(rest[1..], fields[1..])
  }

  lemma EncodedFieldText(f: Field)
    ensures FieldText(Encode(f.key), Encode(f.value), f)
  {
    EncodedIsEscaped(f.key);
    EncodedIsEscaped(f.value);
    DecodeEncoded(f.key);
    DecodeEncoded(f.value);
  }

  lemma FieldIsAForm(f: Field, fields: seq<Field>, rest: seq<byte>)
    requires fields != [] && fields[0] == f && RestOf(rest, fields)
    ensures FormOf(EncodeField(f) + rest, fields)
  {
    var key, value := Encode(f.key), Encode(f.value);
    assert FieldText(key, value, f) by { EncodedFieldText(f); }
    assert EncodeField(f) + rest == Joined(key, value, rest);
  }

  /** What is written for the wire: nothing but plain bytes, upper-case escapes and the two separators in their places. */
  lemma {:induction false} BodyIsAForm(fields: seq<Field>)
    ensures FormOf(EncodeForm(fields), fields)
    decreases |fields|
  {
    if |fields| == 1 {
      assert EncodeForm(fields) == EncodeField(fields[0]) + [];
      FieldIsAForm(fields[0], fields, []);
    } else if fields != [] {
      var rest := [AMPERSAND] + EncodeForm(fields[1..]);
      BodyIsAForm(fields[1..]);
      assert rest[1..] == EncodeForm(fields[1..]);
      FieldIsAForm(fields[0], fields, rest);
    }
  }

  // ---------------------------------------------------------------- the pre-sized buffer

  lemma {:induction false} EncodedLenIsExact(s: seq<byte>)
    ensures |Encode(s)| == EncodedLen(s)
    decreases |s|
  {
    if s != [] { EncodedLenIsExact(s[1..]); }
  }

  /** The body fills the reserved capacity but for the separator after the last field. */
  lemma {:induction false} CapacityIsExact(fields: seq<Field>)
    ensures |EncodeForm(fields)| == if fields == [] then 0 else Capacity(fields) - 1
    decreases |fields|
  {
    if fields != [] {
      EncodedLenIsExact(fields[0].key);
      EncodedLenIsExact(fields[0].value);
      CapacityIsExact(fields[1..]);
    }
  }

  lemma {:induction false} EncodeSnoc(s: seq<byte>, b: byte)
    ensures Encode(s + [b]) == Encode(s) + EncodeByte(b)
    decreases |s|
  {
    if s == [] {
      assert s + [b] == [b] && [b][1..] == [];
    } else {
      assert (s + [b])[1..] == s[1..] + [b];
      EncodeSnoc(s[1..], b);
    }
  }

  /** What is still to be written once the first `i` fields are. */
  function Remaining(fields: seq<Field>, i: nat): seq<byte>
    requires i <= |fields|
  {
    if i == |fields| then [] else (if i == 0 then [] else [AMPERSAND]) + EncodeForm(fields[i..])
  }

  lemma RemainingStep(out: seq<byte>, fields: seq<Field>, i: nat)
    requires i < |fields|
    ensures (if i == 0 then out else out + [AMPERSAND]) + EncodeField(fields[i]) + Remaining(fields, i + 1)
         == out + Remaining(fields, i)
  {
    var tail := fields[i..];
    var head, rest := EncodeField(fields[i]), Remaining(fields, i + 1);
    assert EncodeForm(tail) == head + rest by {
      assert tail[1..] == fields[i + 1..] && tail[0] == fields[i];
    }
    var separator := if i == 0 then [] else [AMPERSAND];
    assert (if i == 0 then out else out + [AMPERSAND]) == out + separator;
    Regroup(out, separator, head, rest);
  }

  lemma Regroup(a: seq<byte>, b: seq<byte>, c: seq<byte>, d: seq<byte>)
    ensures a + b + c + d == a + (b + (c + d))
  {
  }

  /** Appends the encoded bytes of `s` to `out`. */
  method EncodeInto(out: seq<byte>, s: seq<byte>) returns (extended: seq<byte>)
    ensures extended == out + Encode(s)
    ensures |extended| == |out| + EncodedLen(s)
  {
    extended := out;
    for i := 0 to |s|
      invariant extended == out + Encode(s[..i])
    {
      var b := s[i];
      assert s[..i + 1] == s[..i] + [b];
      EncodeSnoc(s[..i], b);
      if IsUnreserved(b) {
        extended := extended + [b];
      } else {
        extended := extended + [PERCENT];
        extended := extended + [HexUpper(b / 16)];
        extended := extended + [HexUpper(b % 16)];
      }
    }
    assert s[..|s|] == s;
    EncodedLenIsExact(s);
  }

  method AppendField(out: seq<byte>, f: Field) returns (extended: seq<byte>)
    ensures extended == out + EncodeField(f)
  {
    extended := EncodeInto(out, f.key);
    extended := extended + [EQUALS];
    extended := EncodeInto(extended, f.value);
  }

  /** Writes the fields in order, a separator before each but the first. */
  method WriteForm(fields: seq<Field>) returns (out: seq<byte>)
    ensures out == EncodeForm(fields)
  {
    out := [];
    for i := 0 to |fields|
      invariant out + Remaining(fields, i) == EncodeForm(fields)
    {
      RemainingStep(out, fields, i);
      if i > 0 {
        out := out + [AMPERSAND];
      }
      out := AppendField(out, fields[i]);
    }
  }

  /** The request body: it decodes to the fields, and the capacity reserved is never outgrown. */
  method BuildForm(fields: seq<Field>) returns (out: seq<byte>, capacity: nat)
    ensures out == EncodeForm(fields) && DecodeForm(out) == Some(fields)
    ensures capacity == Capacity(fields) && |out| <= capacity
  {
    capacity := Capacity(fields);
    out := WriteForm(fields);
    FormRoundTrip(fields);
    CapacityIsExact(fields);
  }
}
