/**
 Self-delimiting fields: a decimal byte count, a colon and that many bytes of UTF-8. The two signing
 formats put a name before it and a newline after it; the process identity material uses it bare.
 */
module FieldCodec {
  import opened Wrappers
  import opened Utf8
  import opened Decimal

  const COLON: Byte := 58
  const NEWLINE: Byte := 10

  // ---- printing ----

  /** A bytes literal, one byte an ASCII character. */
  function Literal(text: string): Bytes
    requires forall i :: 0 <= i < |text| ==> text[i] as int < 0x80
  {
    seq(|text|, i requires 0 <= i < |text| => text[i] as int)
  }

  function Counted(value: string): Bytes {
    Encode(Print(|Encode(value)|)) + [COLON] + Encode(value)
  }

  function Field(name: Bytes, value: string): Bytes {
    name + [COLON] + Counted(value) + [NEWLINE]
  }

  function Fields(names: seq<Bytes>, values: seq<string>): Bytes
    requires |names| == |values|
  {
    if names == [] then [] else Field(names[0], values[0]) + Fields(names[1..], values[1..])
  }

  // ---- parsing ----

  function TakePrefix(prefix: Bytes, bs: Bytes): (rest: Option<Bytes>)
    ensures rest.Some? <==> prefix <= bs
    ensures rest.Some? ==> bs == prefix + rest.value
  {
    if |prefix| <= |bs| && bs[..|prefix|] == prefix then Some(bs[|prefix|..]) else None
  }

  /** How many ASCII digits bs starts with. */
  function DigitRun(bs: Bytes): (n: nat)
    ensures n <= |bs|
    ensures forall i :: 0 <= i < n ==> 48 <= bs[i] < 58
    ensures n < |bs| ==> !(48 <= bs[n] < 58)
  {
    if bs == [] || !(48 <= bs[0] < 58) then 0 else 1 + DigitRun(bs[1..])
  }

  function DigitText(bs: Bytes): (s: string)
    requires forall i :: 0 <= i < |bs| ==> 48 <= bs[i] < 58
    ensures |s| == |bs| && AllDigits(s)
    ensures forall i :: 0 <= i < |bs| ==> s[i] as int == bs[i]
  {
    seq(|bs|, i requires 0 <= i < |bs| => bs[i] as char)
  }

  function ParseCounted(bs: Bytes): Option<(string, Bytes)> {
    var k := DigitRun(bs);
    var digits := DigitText(bs[..k]);
    if !Canonical(digits) then None
    else
      var n := Read(digits);
      if |bs| < k + 1 + n || bs[k] != COLON then None
      else
        match Decode(bs[k + 1..k + 1 + n])
        case None => None
        case Some(value) => Some((value, bs[k + 1 + n..]))
  }

  function ParseField(name: Bytes, bs: Bytes): Option<(string, Bytes)> {
    match TakePrefix(name + [COLON], bs)
    case None => None
    case Some(body) =>
      match ParseCounted(body)
      case None => None
      case Some((value, rest)) =>
        if rest != [] && rest[0] == NEWLINE then Some((value, rest[1..])) else None
  }

  function ParseFields(names: seq<Bytes>, bs: Bytes): Option<(seq<string>, Bytes)> {
    if names == [] then Some(([], bs))
    else
      match ParseField(names[0], bs)
      case None => None
      case Some((value, rest)) =>
        match ParseFields(names[1..], rest)
        case None => None
        case Some((values, tail)) => Some(([value] + values, tail))
  }

  // ---- the parsers invert the printers, and accept nothing else ----

  /** Printed digits followed by a non-digit are read back as the whole digit run. */
  lemma DigitRunOfPrint(n: nat, tail: Bytes)
    requires tail == [] || !(48 <= tail[0] < 58)
    ensures DigitRun(Encode(Print(n)) + tail) == |Print(n)| == |Encode(Print(n))|
    ensures DigitText((Encode(Print(n)) + tail)[..|Print(n)|]) == Print(n)
  {
    var s := Print(n);
    EncodeAscii(s);
    var bs := Encode(s) + tail;
    RunEnds(bs, |s|);
    assert bs[..|s|] == Encode(s);
  }

  lemma {:induction false} RunEnds(bs: Bytes, n: nat)
    requires n <= |bs|
    requires forall i :: 0 <= i < n ==> 48 <= bs[i] < 58
    requires n == |bs| || !(48 <= bs[n] < 58)
    ensures DigitRun(bs) == n
  {
    if n > 0 {
      RunEnds(bs[1..], n - 1);
    }
  }

  lemma CountedRoundTrip(value: string, rest: Bytes)
    ensures ParseCounted(Counted(value) + rest) == Some((value, rest))
  {
    var data := Encode(value);
    var tail := [COLON] + data + rest;
    var bs := Counted(value) + rest;
    assert bs == Encode(Print(|data|)) + tail;
    DigitRunOfPrint(|data|, tail);
    ReadPrint(|data|);
    var k := DigitRun(bs);
    assert bs[k..] == tail;
    assert bs[k + 1..k + 1 + |data|] == data;
    assert bs[k + 1 + |data|..] == rest;
    DecodeExact(data, value);
  }

  lemma Split(bs: Bytes, k: nat, n: nat)
    requires k + 1 + n <= |bs|
    ensures bs == bs[..k] + [bs[k]] + bs[k + 1..k + 1 + n] + bs[k + 1 + n..]
  {
  }

  lemma Regroup(a: Bytes, b: Bytes, c: Bytes, d: Bytes)
    ensures a + (b + (c + d)) == a + b + c + d
  {
  }

  lemma Shift(a: Bytes, b: Bytes, c: Bytes)
    ensures a + (b + c) == a + b + c
  {
  }

  /** A canonical digit run is what printing its number encodes to. */
  lemma DigitsReprint(run: Bytes)
    requires forall i :: 0 <= i < |run| ==> 48 <= run[i] < 58
    requires Canonical(DigitText(run))
    ensures run == Encode(Print(Read(DigitText(run))))
  {
    PrintRead(DigitText(run));
    EncodeAscii(DigitText(run));
  }

  lemma CountedSound(bs: Bytes)
    requires ParseCounted(bs).Some?
    ensures var (value, rest) := ParseCounted(bs).value; bs == Counted(value) + rest
  {
    var k := DigitRun(bs);
    var n := Read(DigitText(bs[..k]));
    DigitsReprint(bs[..k]);
    DecodeExact(bs[k + 1..k + 1 + n], ParseCounted(bs).value.0);
    Split(bs, k, n);
  }

  lemma FieldRoundTrip(name: Bytes, value: string, rest: Bytes)
    ensures ParseField(name, Field(name, value) + rest) == Some((value, rest))
  {
    var prefix, body := name + [COLON], Counted(value) + ([NEWLINE] + rest);
    var bs := Field(name, value) + rest;
    assert bs == prefix + body;
    assert bs[..|prefix|] == prefix && bs[|prefix|..] == body;
    CountedRoundTrip(value, [NEWLINE] + rest);
  }

  lemma FieldSound(name: Bytes, bs: Bytes)
    requires ParseField(name, bs).Some?
    ensures var (value, rest) := ParseField(name, bs).value; bs == Field(name, value) + rest
  {
    var prefix := name + [COLON];
    var body := TakePrefix(prefix, bs).value;
    var (value, after) := ParseCounted(body).value;
    CountedSound(body);
    assert after == [NEWLINE] + after[1..];
    Regroup(prefix, Counted(value), [NEWLINE], after[1..]);
  }

  lemma FieldsSplit(names: seq<Bytes>, values: seq<string>, rest: Bytes)
    requires |values| == |names| > 0
    ensures Fields(names, values) + rest
         == Field(names[0], values[0]) + (Fields(names[1..], values[1..]) + rest)
  {
    Shift(Field(names[0], values[0]), Fields(names[1..], values[1..]), rest);
  }

  lemma ParseFieldsStep(names: seq<Bytes>, bs: Bytes, tail: Bytes, values: seq<string>, rest: Bytes)
    requires names != [] && values != [] && ParseField(names[0], bs) == Some((values[0], tail))
    requires ParseFields(names[1..], tail) == Some((values[1..], rest))
    ensures ParseFields(names, bs) == Some((values, rest))
  {
    assert [values[0]] + values[1..] == values;
  }

  lemma {:induction false} FieldsRoundTrip(names: seq<Bytes>, bs: Bytes, values: seq<string>, rest: Bytes)
    requires |values| == |names| && bs == Fields(names, values) + rest
    ensures ParseFields(names, bs) == Some((values, rest))
  {
    if names == [] {
      assert bs == rest;
    } else {
      var tail := Fields(names[1..], values[1..]) + rest;
      assert ParseField(names[0], bs) == Some((values[0], tail)) by {
        FieldsSplit(names, values, rest);
        FieldRoundTrip(names[0], values[0], tail);
      }
      FieldsRoundTrip(names[1..], tail, values[1..], rest);
      ParseFieldsStep(names, bs, tail, values, rest);
    }
  }

  lemma {:induction false} FieldsSound(names: seq<Bytes>, bs: Bytes)
    requires ParseFields(names, bs).Some?
    ensures var (values, rest) := ParseFields(names, bs).value;
            |values| == |names| && bs == Fields(names, values) + rest
  {
    if names == [] {
      assert [] + bs == bs;
    } else {
      var (value, tail) := ParseField(names[0], bs).value;
      var (others, rest) := ParseFields(names[1..], tail).value;
      FieldSound(names[0], bs);
      FieldsSound(names[1..], tail);
      var values := [value] + others;
      assert values[1..] == others;
      FieldsSplit(names, values, rest);
    }
  }

  /** Reading a list of named fields succeeds exactly on the bytes that printing it makes. */
  lemma FieldsExact(names: seq<Bytes>, bs: Bytes, values: seq<string>, rest: Bytes)
    ensures ParseFields(names, bs) == Some((values, rest))
        <==> |values| == |names| && bs == Fields(names, values) + rest
  {
    if |values| == |names| && bs == Fields(names, values) + rest {
      FieldsRoundTrip(names, bs, values, rest);
    }
    if ParseFields(names, bs) == Some((values, rest)) {
      FieldsSound(names, bs);
    }
  }

  /** Fields under the same names are prefix-free: one output never starts another. */
  lemma FieldsPrefixFree(names: seq<Bytes>, values: seq<string>, others: seq<string>)
    requires |values| == |others| == |names|
    requires Fields(names, values) <= Fields(names, others)
    ensures values == others
  {
    var bs := Fields(names, others);
    var tail := bs[|Fields(names, values)|..];
    FieldsExact(names, bs, values, tail);
    assert bs == bs + [];
    FieldsExact(names, bs, others, []);
  }
}
