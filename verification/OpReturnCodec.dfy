/**
 The OP_RETURN envelope in its two encodings (`packages/telemetry-codec`): a script with one
 push per field, and the same fields laid end to end.

 A four-byte push length with its top bit set reads as a negative number (signed shifts), which
 moves the parser's index back; reading such a script may never end.
 */
module OpReturnCodec {
  import opened Lists
  import opened Numbers
  import opened Options
  import Hex

  type Byte = b: int | 0 <= b < 256

  type Bytes = seq<Byte>

  const PROTOCOL_ID: Bytes := [0x41, 0x49, 0x52, 0x43, 0x48, 0x49, 0x56, 0x45]
  const PROTOCOL_VERSION: Byte := 0x01

  const MAX_SAFE := 0x1F_FFFF_FFFF_FFFF
  const TWO_64 := 0x1_0000_0000_0000_0000

  // ---------- fields ----------

  predicate IsHexDigit(c: char) { Hex.Digit(c) >= 0 }

  predicate IsIcao(icao: string) { |icao| == 6 && forall i :: 0 <= i < 6 ==> IsHexDigit(icao[i]) }

  function HexByte(a: char, b: char): Byte
    requires IsHexDigit(a) && IsHexDigit(b)
  {
    16 * Hex.Digit(a) + Hex.Digit(b)
  }

  function EncodeIcao(icao: string): Option<Bytes> {
    if IsIcao(icao)
    then Some([HexByte(icao[0], icao[1]), HexByte(icao[2], icao[3]), HexByte(icao[4], icao[5])])
    else None
  }

  function UpperDigit(v: int): char
    requires 0 <= v < 16
  {
    if v < 10 then ('0' as int + v) as char else ('A' as int + v - 10) as char
  }

  function UpperText(b: Byte): string { [UpperDigit(b / 16), UpperDigit(b % 16)] }

  function DecodeIcao(bytes: Bytes): string
    requires |bytes| == 3
  {
    UpperText(bytes[0]) + UpperText(bytes[1]) + UpperText(bytes[2])
  }

  function UpperChar(c: char): char { if 'a' <= c <= 'z' then (c as int - 32) as char else c }

  function Upper(s: string): string { seq(|s|, i requires 0 <= i < |s| => UpperChar(s[i])) }

  /** A JavaScript number, as far as a timestamp is concerned. */
  datatype Number = Finite(value: real) | NotFinite

  /** `width` bytes of n, least significant first. */
  function LittleEndian(n: nat, width: nat): (bs: Bytes)
    ensures |bs| == width
  {
    if width == 0 then [] else [n % 256] + LittleEndian(n / 256, width - 1)
  }

  function FromLittleEndian(bs: Bytes): nat { if bs == [] then 0 else bs[0] + 256 * FromLittleEndian(bs[1..]) }

  /** Eight bytes of the floor, modulo 2^64 as a 64-bit store keeps it. */
  function EncodeTimestamp(ms: Number): Option<Bytes> {
    if ms.NotFinite? || ms.value < 0.0 then None else Some(LittleEndian(ms.value.Floor, 8))
  }

  function DecodeTimestamp(bytes: Bytes): Option<nat>
    requires |bytes| == 8
  {
    var n := FromLittleEndian(bytes);
    if n > MAX_SAFE then None else Some(n)
  }

  predicate IsRecordType(b: Byte) { 1 <= b <= 5 }

  // ---------- flat form ----------

  function Flat(icao: Bytes, ts: Bytes, recordType: Byte, payload: Bytes): Bytes {
    PROTOCOL_ID + [PROTOCOL_VERSION] + icao + ts + [recordType] + payload
  }

  function BuildPayload(icao: string, ms: Number, recordType: Byte, payload: Bytes): Option<Bytes> {
    var i, t := EncodeIcao(icao), EncodeTimestamp(ms);
    if i.None? || t.None? then None else Some(Flat(i.value, t.value, recordType, payload))
  }

  datatype Parsed = Parsed(icao: string, timestamp: nat, recordType: Byte, payload: Bytes)

  /** None stands for each of the errors the source throws. */
  function ParsePayload(data: Bytes): Option<Parsed> {
    if |data| < 21 || data[..8] != PROTOCOL_ID || data[8] != PROTOCOL_VERSION then None
    else
      var ts := DecodeTimestamp(data[12..20]);
      if ts.None? || !IsRecordType(data[20]) then None
      else Some(Parsed(DecodeIcao(data[9..12]), ts.value, data[20], data[21..]))
  }

  // ---------- script form ----------

  function PushOpcode(n: nat): Option<Bytes> {
    if n <= 75 then Some([n])
    else if n <= 255 then Some([0x4c, n])
    else if n <= 65_535 then Some([0x4d] + LittleEndian(n, 2))
    else if n < TWO_32 then Some([0x4e] + LittleEndian(n, 4))
    else None
  }

  function Push(data: Bytes): Option<Bytes> {
    if PushOpcode(|data|).None? then None else Some(PushOpcode(|data|).value + data)
  }

  function Script(fields: seq<Bytes>): Option<Bytes> {
    if fields == [] then Some([])
    else if Push(fields[0]).None? || Script(fields[1..]).None? then None
    else Some(Push(fields[0]).value + Script(fields[1..]).value)
  }

  function Fields(icao: Bytes, ts: Bytes, recordType: Byte, payload: Bytes): seq<Bytes> {
    [PROTOCOL_ID, [PROTOCOL_VERSION], icao, ts, [recordType], payload]
  }

  function BuildScript(icao: string, ms: Number, recordType: Byte, payload: Bytes): Option<Bytes> {
    var i, t := EncodeIcao(icao), EncodeTimestamp(ms);
    if i.None? || t.None? || Script(Fields(i.value, t.value, recordType, payload)).None? then None
    else Some([0x00, 0x6a] + Script(Fields(i.value, t.value, recordType, payload)).value)
  }

  /** How a push begins: the bytes its opcode takes and the length it announces. */
  datatype Head = Head(size: nat, length: nat) | BadHead | SignedHead

  function ReadHead(s: Bytes): (h: Head)
    requires s != []
    ensures h.Head? ==> 0 < h.size <= |s|
  {
    if 0 < s[0] <= 75 then Head(1, s[0])
    else if s[0] == 0x4c then if |s| < 2 then BadHead else Head(2, s[1])
    else if s[0] == 0x4d then if |s| < 3 then BadHead else Head(3, FromLittleEndian(s[1..3]))
    else if s[0] == 0x4e then
      if |s| < 5 then BadHead
      else if FromLittleEndian(s[1..5]) >= TWO_31 then SignedHead
      else Head(5, FromLittleEndian(s[1..5]))
    else BadHead
  }

  datatype Pushes = Pushes(list: seq<Bytes>) | NotPushes | SignedLength

  function ReadPushes(s: Bytes): Pushes
    decreases |s|
  {
    if s == [] then Pushes([])
    else
      var h := ReadHead(s);
      if h.BadHead? then NotPushes
      else if h.SignedHead? then SignedLength
      else if h.size + h.length > |s| then NotPushes
      else
        var rest := ReadPushes(s[h.size + h.length..]);
        if rest.Pushes? then Pushes([s[h.size..h.size + h.length]] + rest.list) else rest
  }

  function Concat(list: seq<Bytes>): Bytes { if list == [] then [] else list[0] + Concat(list[1..]) }

  // ---------- the parser's index ----------

  /** Where the index goes from one push, and what it pushed; a negative index holds no opcode. */
  datatype Jump = To(next: nat, data: Bytes) | Refused

  /** A length of 2^31 or more is read as negative: the push is empty and the index moves by it. */
  function JumpAt(script: Bytes, i: nat): (j: Jump)
    requires i < |script|
    ensures j.To? ==> j.next <= |script|
  {
    var h := ReadHead(script[i..]);
    match h
    case BadHead => Refused
    case SignedHead =>
      var next := i + 5 + FromLittleEndian(script[i + 1..i + 5]) - TWO_32;
      FourBytesBound(script[i + 1..i + 5]);
      if next < 0 then Refused else To(next, [])
    case Head(size, length) =>
      var from, next := i + size, i + size + length;
      if next > |script| then Refused else To(next, script[from..next])
  }

  lemma {:induction false} FourBytesBound(bs: Bytes)
    ensures FromLittleEndian(bs) < Pow256(|bs|)
    ensures |bs| == 4 ==> FromLittleEndian(bs) < TWO_32
    decreases |bs|
  {
    if bs != [] { FourBytesBound(bs[1..]); }
    if |bs| == 4 { assert Pow256(4) == 256 * Pow256(3) && Pow256(3) == 256 * Pow256(2) && Pow256(2) == 256 * 256; }
  }

  datatype Reading = Finished(list: seq<Bytes>) | Fails | Going

  /** Reading from an index, for at most n pushes. */
  function ReadFrom(script: Bytes, i: nat, n: nat): Reading
    decreases n
  {
    if i >= |script| then Finished([])
    else if n == 0 then Going
    else
      var jump := JumpAt(script, i);
      if jump.Refused? then Fails else Pushed([jump.data], ReadFrom(script, jump.next, n - 1))
  }

  function Pushed(front: seq<Bytes>, r: Reading): Reading {
    if r.Finished? then Finished(front + r.list) else r
  }

  /** Reading from an index comes to an end, in a refusal or at the end of the script. */
  ghost predicate Ends(script: Bytes, i: nat) { exists n: nat :: !ReadFrom(script, i, n).Going? }

  datatype Envelope = Envelope(flat: Bytes) | NotEnvelope | Forever

  /** Where the pushes start: an optional OP_FALSE, then OP_RETURN. */
  function DataStart(script: Bytes): Option<nat> {
    var i := if script != [] && script[0] == 0x00 then 1 else 0;
    if i < |script| && script[i] == 0x6a then Some(i + 1) else None
  }

  /** As many pushes as the script has bytes are enough to tell (`EndsExact`). */
  function Flatten(script: Bytes): Envelope {
    if DataStart(script).None? then NotEnvelope
    else
      match ReadFrom(script, DataStart(script).value, |script|)
      case Fails => NotEnvelope
      case Going => Forever
      case Finished(list) =>
        if |list| == 6 && list[0] == PROTOCOL_ID then Envelope(Concat(list)) else NotEnvelope
  }

  // ---------- the source's loops ----------

  method AppendPush(script: Bytes, data: Bytes) returns (r: Option<Bytes>)
    ensures r == if Push(data).None? then None else Some(script + Push(data).value)
  {
    var n := |data|;
    var out := script;
    if n <= 75 {
      out := out + [n];
    } else if n <= 255 {
      out := out + [0x4c, n];
    } else if n <= 65_535 {
      TwoBytes(n);
      out := out + [0x4d, n % 256, n / 256 % 256];
    } else if n < TWO_32 {
      FourBytes(n);
      out := out + [0x4e, n % 256, n / 256 % 256, n / 0x1_0000 % 256, n / 0x100_0000 % 256];
    } else {
      return None;
    }
    ghost var opcode := PushOpcode(n).value;
    assert out == script + opcode;
    for i := 0 to n
      invariant out == script + opcode + data[..i]
    {
      out := out + [data[i]];
      assert data[..i + 1] == data[..i] + [data[i]];
    }
    assert data[..n] == data;
    assert script + opcode + data == script + (opcode + data);
    r := Some(out);
  }

  lemma TwoBytes(n: nat)
    ensures LittleEndian(n, 2) == [n % 256, n / 256 % 256]
  {
    assert LittleEndian(n / 256, 1) == [n / 256 % 256] + LittleEndian(n / 256 / 256, 0);
  }

  lemma FourBytes(n: nat)
    ensures LittleEndian(n, 4) == [n % 256, n / 256 % 256, n / 0x1_0000 % 256, n / 0x100_0000 % 256]
  {
    assert n / 256 / 256 == n / 0x1_0000;
    assert n / 256 / 256 / 256 == n / 0x100_0000;
    var a, b, c := n / 256, n / 256 / 256, n / 256 / 256 / 256;
    assert LittleEndian(c, 1) == [c % 256] + LittleEndian(c / 256, 0);
    assert LittleEndian(b, 2) == [b % 256] + LittleEndian(c, 1);
    assert LittleEndian(a, 3) == [a % 256] + LittleEndian(b, 2);
  }

  /** `Uint8Array.set`. */
  method Set(out: array<Byte>, bytes: Bytes, o: nat)
    requires o + |bytes| <= out.Length
    modifies out
    ensures out[..] == old(out[..o]) + bytes + old(out[o + |bytes|..])
  {
    for k := 0 to |bytes|
      invariant out[..o] == old(out[..o])
      invariant out[o..o + k] == bytes[..k]
      invariant out[o + |bytes|..] == old(out[o + |bytes|..])
    {
      out[o + k] := bytes[k];
      assert out[o..o + k + 1] == out[o..o + k] + [bytes[k]];
    }
    assert out[..] == out[..o] + out[o..o + |bytes|] + out[o + |bytes|..];
  }

  method BuildOpReturnPayload(icao: string, ms: Number, recordType: Byte, payload: Bytes)
    returns (r: Option<Bytes>)
    ensures r == BuildPayload(icao, ms, recordType, payload)
  {
    var icaoBytes, tsBytes := EncodeIcao(icao), EncodeTimestamp(ms);
    if icaoBytes.None? || tsBytes.None? { return None; }
    var out := new Byte[21 + |payload|](_ => 0);
    Set(out, PROTOCOL_ID, 0);
    assert out[..8] == PROTOCOL_ID;
    out[8] := PROTOCOL_VERSION;
    assert out[..9] == PROTOCOL_ID + [PROTOCOL_VERSION];
    Set(out, icaoBytes.value, 9);
    assert out[..12] == PROTOCOL_ID + [PROTOCOL_VERSION] + icaoBytes.value;
    Set(out, tsBytes.value, 12);
    assert out[..20] == PROTOCOL_ID + [PROTOCOL_VERSION] + icaoBytes.value + tsBytes.value;
    out[20] := recordType;
    assert out[..21] == PROTOCOL_ID + [PROTOCOL_VERSION] + icaoBytes.value + tsBytes.value + [recordType];
    Set(out, payload, 21);
    assert out[..] == Flat(icaoBytes.value, tsBytes.value, recordType, payload);
    r := Some(out[..]);
  }

  method BuildOpReturnScript(icao: string, ms: Number, recordType: Byte, payload: Bytes)
    returns (r: Option<Bytes>)
    ensures r == BuildScript(icao, ms, recordType, payload)
  {
    var icaoBytes, tsBytes := EncodeIcao(icao), EncodeTimestamp(ms);
    if icaoBytes.None? || tsBytes.None? { return None; }
    var fields := Fields(icaoBytes.value, tsBytes.value, recordType, payload);
    var script: Bytes := [0x00, 0x6a];
    assert fields[0..] == fields;
    for k := 0 to |fields|
      invariant Script(fields).Some? <==> Script(fields[k..]).Some?
      invariant Script(fields).Some? ==> script + Script(fields[k..]).value == [0x00, 0x6a] + Script(fields).value
    {
      assert fields[k..][1..] == fields[k + 1..] && fields[k..][0] == fields[k];
      var more := AppendPush(script, fields[k]);
      if more.None? { return None; }
      if Script(fields).Some? {
        ScriptNext(script, fields[k..]);
      }
      script := more.value;
    }
    assert fields[|fields|..] == [] && Script([]) == Some([]);
    assert script + [] == script;
    r := Some(script);
  }

  lemma ScriptNext(script: Bytes, fields: seq<Bytes>)
    requires fields != [] && Script(fields).Some?
    ensures script + Script(fields).value == (script + Push(fields[0]).value) + Script(fields[1..]).value
  {
  }

  /** Reads the pushes by a moving index, then copies them end to end; the source returns exactly if reading ends. */
  method FlattenOpReturnScript(script: Bytes) returns (r: Envelope)
    requires DataStart(script).Some? ==> Ends(script, DataStart(script).value)
    ensures r == Flatten(script) && r != Forever
  {
    var start := DataStart(script);
    if start.None? { return NotEnvelope; }
    EndsExact(script, start.value);
    var read := ReadAll(script, start.value);
    if read.Fails? { return NotEnvelope; }
    var pushes := read.list;
    if |pushes| != 6 || pushes[0] != PROTOCOL_ID { return NotEnvelope; }
    var flat := JoinPushes(pushes);
    r := Envelope(flat);
  }

  method ReadAll(script: Bytes, start: nat) returns (r: Reading)
    requires !ReadFrom(script, start, |script|).Going?
    ensures r == ReadFrom(script, start, |script|)
  {
    var i: nat := start;
    var pushes: seq<Bytes> := [];
    ghost var left: nat := |script|;
    while i < |script|
      invariant !ReadFrom(script, i, left).Going?
      invariant Pushed(pushes, ReadFrom(script, i, left)) == ReadFrom(script, start, |script|)
      decreases left
    {
      var jump := ReadOne(script, i);
      if jump.Refused? { return Fails; }
      PushedNext(pushes, jump.data, ReadFrom(script, jump.next, left - 1));
      pushes := pushes + [jump.data];
      i, left := jump.next, left - 1;
    }
    r := Finished(pushes);
  }

  lemma PushedNext(pushes: seq<Bytes>, data: Bytes, rest: Reading)
    ensures Pushed(pushes, Pushed([data], rest)) == Pushed(pushes + [data], rest)
  {
    if rest.Finished? { assert pushes + ([data] + rest.list) == (pushes + [data]) + rest.list; }
  }

  /** A length spelled in two bytes, and in four. */
  function Two(a: int, b: int): int { a + 256 * b }

  function Four(a: int, b: int, c: int, d: int): int { a + 256 * b + 0x1_0000 * c + 0x100_0000 * d }

  /** One push: opcode, length in four forms, bounds. */
  method ReadOne(script: Bytes, i: nat) returns (jump: Jump)
    requires i < |script|
    ensures jump == JumpAt(script, i)
  {
    var opcode, at := script[i], i + 1;
    var length: int := 0;
    HeadParts(script, i);
    if 0 < opcode <= 75 {
      length := opcode;
    } else if opcode == 0x4c {
      if at + 1 > |script| { return Refused; }
      length := script[at];
      at := at + 1;
    } else if opcode == 0x4d {
      if at + 2 > |script| { return Refused; }
      length := Two(script[at], script[at + 1]);
      at := at + 2;
    } else if opcode == 0x4e {
      if at + 4 > |script| { return Refused; }
      length := Four(script[at], script[at + 1], script[at + 2], script[at + 3]);
      if length >= TWO_31 { length := length - TWO_32; }
      at := at + 4;
    } else {
      return Refused;
    }
    if at + length > |script| { return Refused; }
    if at + length < 0 { return Refused; }
    jump := To(at + length, if length < 0 then [] else script[at..at + length]);
  }

  /** The bytes of the head, read in place. */
  lemma HeadParts(script: Bytes, i: nat)
    requires i < |script|
    ensures script[i..][0] == script[i] && |script[i..]| == |script| - i
    ensures i + 1 < |script| ==> script[i..][1] == script[i + 1]
    ensures i + 2 < |script| ==>
      FromLittleEndian(script[i..][1..3]) == Two(script[i + 1], script[i + 2])
    ensures i + 4 < |script| ==>
      script[i..][1..5] == script[i + 1..i + 5]
      && FromLittleEndian(script[i + 1..i + 5])
         == Four(script[i + 1], script[i + 2], script[i + 3], script[i + 4])
  {
    if i + 2 < |script| { ReadTwo(script[i..][1..3]); }
    if i + 4 < |script| {
      assert script[i..][1..5] == script[i + 1..i + 5];
      ReadFour(script[i + 1..i + 5]);
    }
  }

  lemma ReadTwo(bs: Bytes)
    requires |bs| == 2
    ensures FromLittleEndian(bs) == Two(bs[0], bs[1])
  {
    assert bs[1..][1..] == [] && FromLittleEndian(bs[1..]) == bs[1];
  }

  lemma ReadFour(bs: Bytes)
    requires |bs| == 4
    ensures FromLittleEndian(bs) == Four(bs[0], bs[1], bs[2], bs[3])
  {
    ReadTwo(bs[2..]);
    assert bs[1..][1..] == bs[2..];
  }

  method JoinPushes(pushes: seq<Bytes>) returns (flat: Bytes)
    ensures flat == Concat(pushes)
  {
    flat := [];
    assert pushes[0..] == pushes;
    for k := 0 to |pushes|
      invariant flat + Concat(pushes[k..]) == Concat(pushes)
    {
      assert pushes[k..][1..] == pushes[k + 1..];
      flat := flat + pushes[k];
    }
    assert pushes[|pushes|..] == [];
  }

  // ---------- exactly when reading ends ----------

  /** The index after k pushes, while there is another push to read. */
  function Place(script: Bytes, i: nat, k: nat): Option<nat>
    decreases k
  {
    if i >= |script| then None
    else if k == 0 then Some(i)
    else if JumpAt(script, i).Refused? then None
    else Place(script, JumpAt(script, i).next, k - 1)
  }

  lemma {:induction false} GoingIsPlaced(script: Bytes, i: nat, k: nat)
    ensures ReadFrom(script, i, k).Going? <==> Place(script, i, k).Some?
    decreases k
  {
    if i < |script| && k > 0 && JumpAt(script, i).To? { GoingIsPlaced(script, JumpAt(script, i).next, k - 1); }
  }

  lemma {:induction false} PlaceBefore(script: Bytes, i: nat, a: nat, k: nat)
    requires a <= k && Place(script, i, k).Some?
    ensures Place(script, i, a).Some? && Place(script, i, a).value < |script|
    decreases a
  {
    if a > 0 { PlaceBefore(script, JumpAt(script, i).next, a - 1, k - 1); }
  }

  lemma {:induction false} PlacesCompose(script: Bytes, i: nat, a: nat, k: nat)
    requires Place(script, i, a).Some?
    ensures Place(script, i, a + k) == Place(script, Place(script, i, a).value, k)
    decreases a
  {
    if a > 0 { PlacesCompose(script, JumpAt(script, i).next, a - 1, k); }
  }

  /** The index never comes back to where it was. */
  ghost predicate NoRepeat(script: Bytes, i: nat) {
    forall a: nat, b: nat :: a < b && Place(script, i, a).Some? && Place(script, i, b).Some? ==>
      Place(script, i, a) != Place(script, i, b)
  }

  /** An index visited twice is visited for ever. */
  lemma {:induction false} CycleGoesOn(script: Bytes, i: nat, a: nat, b: nat, n: nat)
    requires a < b && Place(script, i, b).Some? && Place(script, i, a) == Place(script, i, b)
    ensures Place(script, i, n).Some?
    decreases n
  {
    if n <= b {
      PlaceBefore(script, i, n, b);
    } else {
      CycleGoesOn(script, i, a, b, n - b + a);
      PlacesCompose(script, i, a, n - b);
      PlacesCompose(script, i, b, n - b);
    }
  }

  /**
   For every script: reading ends if and only if the index visits no place twice, and then it has
   ended after as many pushes as the script has bytes.
   */
  lemma EndsExact(script: Bytes, i: nat)
    ensures Ends(script, i) <==> NoRepeat(script, i)
    ensures Ends(script, i) <==> !ReadFrom(script, i, |script|).Going?
  {
    if Ends(script, i) {
      var n: nat :| !ReadFrom(script, i, n).Going?;
      GoingIsPlaced(script, i, n);
      forall a: nat, b: nat | a < b && Place(script, i, a).Some? && Place(script, i, b).Some?
        ensures Place(script, i, a) != Place(script, i, b)
      {
        if Place(script, i, a) == Place(script, i, b) { CycleGoesOn(script, i, a, b, n); }
      }
    }
    if NoRepeat(script, i) && ReadFrom(script, i, |script|).Going? { TooManyPlaces(script, i); }
  }

  lemma TooManyPlaces(script: Bytes, i: nat)
    requires ReadFrom(script, i, |script|).Going?
    ensures !NoRepeat(script, i)
  {
    GoingIsPlaced(script, i, |script|);
    forall k | 0 <= k <= |script| ensures Place(script, i, k).Some? && Place(script, i, k).value < |script| {
      PlaceBefore(script, i, k, |script|);
    }
    var places := seq(|script| + 1, k requires 0 <= k <= |script| => Place(script, i, k).value);
    if Distinct(places) { DistinctBelow(places, |script|); }
    var a, b :| 0 <= a < b < |places| && places[a] == places[b];
    assert Place(script, i, a) == Place(script, i, b);
  }

  /** Six bytes on which the source reads empty pushes for ever. */
  lemma ReadsForever()
    ensures var script := [0x6a, 0x4e, 0xfb, 0xff, 0xff, 0xff];
      DataStart(script) == Some(1) && !Ends(script, 1) && Flatten(script) == Forever
  {
    var script: Bytes := [0x6a, 0x4e, 0xfb, 0xff, 0xff, 0xff];
    HeadParts(script, 1);
    assert JumpAt(script, 1) == To(1, []);
    assert Place(script, 1, 0) == Some(1);
    assert Place(script, 1, 1) == Place(script, 1, 0);
    EndsExact(script, 1);
  }

  // ---------- scripts without negative lengths are read front to back ----------

  function Prepend(front: seq<Bytes>, p: Pushes): Pushes {
    if p.Pushes? then Pushes(front + p.list) else p
  }

  lemma ReadStops(s: Bytes)
    requires s != []
    ensures var h := ReadHead(s);
      && (h.BadHead? ==> ReadPushes(s) == NotPushes) && (h.SignedHead? ==> ReadPushes(s) == SignedLength)
      && (h.Head? && h.size + h.length > |s| ==> ReadPushes(s) == NotPushes)
      && (h.Head? && h.size + h.length <= |s| ==>
            ReadPushes(s) == Prepend([s[h.size..h.size + h.length]], ReadPushes(s[h.size + h.length..])))
  {
  }

  lemma SliceOfDrop(s: Bytes, i: nat, a: nat, b: nat)
    requires i <= |s| && a <= b <= |s| - i
    ensures s[i..][a..b] == s[i + a..i + b] && s[i..][b..] == s[i + b..]
  {
  }

  lemma JumpOfHead(script: Bytes, i: nat, h: Head)
    requires i < |script| && h == ReadHead(script[i..]) && !h.SignedHead?
    ensures var s := script[i..];
      JumpAt(script, i) == if h.Head? && h.size + h.length <= |s|
                           then To(i + h.size + h.length, s[h.size..h.size + h.length]) else Refused
  {
    var s := script[i..];
    if h.Head? && h.size + h.length <= |s| { SliceOfDrop(script, i, h.size, h.size + h.length); }
  }

  lemma ForwardStep(script: Bytes, i: nat)
    requires i < |script| && !ReadHead(script[i..]).SignedHead?
    ensures var p, jump := ReadPushes(script[i..]), JumpAt(script, i);
      if jump.Refused? then p == NotPushes
      else i < jump.next && p == Prepend([jump.data], ReadPushes(script[jump.next..]))
  {
    var s := script[i..];
    var h := ReadHead(s);
    ReadStops(s);
    JumpOfHead(script, i, h);
    if h.Head? && h.size + h.length <= |s| {
      assert s[h.size + h.length..] == script[i + h.size + h.length..];
    }
  }

  lemma {:induction false} ForwardReads(script: Bytes, i: nat, n: nat)
    requires i <= |script| && n >= |script| - i && !ReadPushes(script[i..]).SignedLength?
    ensures ReadFrom(script, i, n) == Forward(ReadPushes(script[i..]))
    decreases n
  {
    if i < |script| {
      var jump := JumpAt(script, i);
      ReadStops(script[i..]);
      ForwardStep(script, i);
      if jump.To? { ForwardReads(script, jump.next, n - 1); }
    }
  }

  function Forward(p: Pushes): Reading { if p.Pushes? then Finished(p.list) else Fails }

  // ---------- numbers and text invert ----------

  lemma {:induction false} LittleEndianReads(n: nat, width: nat)
    ensures Pow256(width) > 0 && FromLittleEndian(LittleEndian(n, width)) == n % Pow256(width)
  {
    if width > 0 {
      LittleEndianReads(n / 256, width - 1);
      ModSplit(n, Pow256(width - 1));
    }
  }

  lemma ModSplit(n: nat, p: nat)
    requires p > 0
    ensures n % (256 * p) == n % 256 + 256 * (n / 256 % p)
  {
    var q, r := n / 256 / p, n / 256 % p;
    assert n / 256 == p * q + r;
    assert n == 256 * (p * q + r) + n % 256;
    assert n == (256 * p) * q + (256 * r + n % 256);
    assert r <= p - 1;
    Remainder(n, 256 * p, q, 256 * r + n % 256);
  }

  lemma Remainder(n: int, d: int, q: int, r: int)
    requires d > 0 && n == d * q + r && 0 <= r < d
    ensures n % d == r
  {
    var k := q - n / d;
    assert n == d * (n / d) + n % d;
    Distribute(d, q, n / d);
    if k > 0 { AtLeast(d, k); }
    if k < 0 { AtLeast(d, -k); }
  }

  lemma Distribute(d: int, a: int, b: int)
    ensures d * (a - b) == d * a - d * b
  {
  }

  lemma AtLeast(d: int, k: int)
    requires d > 0 && k > 0
    ensures d * k >= d && d * -k <= -d
    decreases k
  {
    if k > 1 {
      AtLeast(d, k - 1);
      Distribute(d, k, 1);
      Distribute(d, -k, -1);
    }
  }

  lemma SplitLow(low: Byte, rest: nat)
    ensures (low + 256 * rest) % 256 == low && (low + 256 * rest) / 256 == rest
  {
  }

  lemma {:induction false} LittleEndianWrites(bs: Bytes)
    ensures LittleEndian(FromLittleEndian(bs), |bs|) == bs
    ensures FromLittleEndian(bs) < Pow256(|bs|)
  {
    if bs != [] {
      LittleEndianWrites(bs[1..]);
      var rest := FromLittleEndian(bs[1..]);
      SplitLow(bs[0], rest);
      assert bs == [bs[0]] + bs[1..];
    }
  }

  lemma EightBytes()
    ensures Pow256(8) == TWO_64 && Pow256(4) == TWO_32 && Pow256(2) == 0x1_0000
  {
    assert Pow256(1) == 256 && Pow256(2) == 0x1_0000 && Pow256(3) == 0x100_0000 && Pow256(4) == 0x1_0000_0000;
    assert Pow256(5) == 0x100_0000_0000 && Pow256(6) == 0x1_0000_0000_0000 && Pow256(7) == 0x100_0000_0000_0000;
  }

  lemma DigitUpper(c: char)
    requires IsHexDigit(c)
    ensures UpperDigit(Hex.Digit(c)) == UpperChar(c)
  {
  }

  lemma UpperDigitReads(v: int)
    requires 0 <= v < 16
    ensures Hex.Digit(UpperDigit(v)) == v
  {
  }

  lemma HexByteText(a: char, b: char)
    requires IsHexDigit(a) && IsHexDigit(b)
    ensures UpperText(HexByte(a, b)) == [UpperChar(a), UpperChar(b)]
  {
    DigitUpper(a);
    DigitUpper(b);
    var v := HexByte(a, b);
    assert v / 16 == Hex.Digit(a) && v % 16 == Hex.Digit(b);
  }

  lemma IcaoRoundTrip(icao: string)
    requires IsIcao(icao)
    ensures DecodeIcao(EncodeIcao(icao).value) == Upper(icao)
  {
    HexByteText(icao[0], icao[1]);
    HexByteText(icao[2], icao[3]);
    HexByteText(icao[4], icao[5]);
  }

  lemma IcaoRebuilds(bytes: Bytes)
    requires |bytes| == 3
    ensures EncodeIcao(DecodeIcao(bytes)) == Some(bytes)
  {
    UpperTextReads(bytes[0]);
    UpperTextReads(bytes[1]);
    UpperTextReads(bytes[2]);
    var s := DecodeIcao(bytes);
    assert s[0] == UpperText(bytes[0])[0] && s[1] == UpperText(bytes[0])[1];
    assert s[2] == UpperText(bytes[1])[0] && s[3] == UpperText(bytes[1])[1];
    assert s[4] == UpperText(bytes[2])[0] && s[5] == UpperText(bytes[2])[1];
    assert IsIcao(s);
    assert bytes == [bytes[0], bytes[1], bytes[2]];
  }

  lemma UpperTextReads(b: Byte)
    ensures var t := UpperText(b); IsHexDigit(t[0]) && IsHexDigit(t[1]) && HexByte(t[0], t[1]) == b
  {
    UpperDigitReads(b / 16);
    UpperDigitReads(b % 16);
  }

  // ---------- the flat form inverts ----------

  lemma FlatParts(icao: Bytes, ts: Bytes, recordType: Byte, payload: Bytes)
    requires |icao| == 3 && |ts| == 8
    ensures var d := Flat(icao, ts, recordType, payload);
      && |d| == 21 + |payload| && d[..8] == PROTOCOL_ID && d[8] == PROTOCOL_VERSION
      && d[9..12] == icao && d[12..20] == ts && d[20] == recordType && d[21..] == payload
  {
  }

  lemma DivideTwice(n: nat, a: nat, b: nat)
    requires a > 0 && b > 0
    ensures a * b > 0 && n / a / b == n / (a * b)
  {
    var q, r, low := n / a / b, n / a % b, n % a;
    assert n / a == b * q + r && n == a * (n / a) + low;
    assert n == (a * b) * q + (a * r + low);
    assert a * r <= a * (b - 1);
    Quotient(n, a * b, q, a * r + low);
  }

  lemma Quotient(n: int, d: int, q: int, r: int)
    requires d > 0 && n == d * q + r && 0 <= r < d
    ensures n / d == q
  {
    Remainder(n, d, q, r);
    Distribute(d, n / d, q);
    if n / d > q { AtLeast(d, n / d - q); }
    if n / d < q { AtLeast(d, q - n / d); }
  }

  /** Byte `k` of a number counts its 256^k. */
  lemma {:induction false} ByteOfNumber(n: nat, width: nat, k: nat)
    requires k < width
    ensures LittleEndian(n, width)[k] == n / Pow256(k) % 256
  {
    if k > 0 {
      ByteOfNumber(n / 256, width - 1, k - 1);
      DivideTwice(n, 256, Pow256(k - 1));
    }
  }

  /** Where each field stands in the flat envelope: the name AIRCHIVE, version 1, then the four fields. */
  lemma EnvelopeLayout(icao: string, ms: Number, recordType: Byte, payload: Bytes)
    requires IsIcao(icao) && ms.Finite? && ms.value >= 0.0
    ensures BuildPayload(icao, ms, recordType, payload).Some?
    ensures var d := BuildPayload(icao, ms, recordType, payload).value;
      && |d| == 21 + |payload|
      && (forall k :: 0 <= k < 8 ==> d[k] == "AIRCHIVE"[k] as int) && d[8] == 1
      && (forall k :: 0 <= k < 3 ==> d[9 + k] == 16 * Hex.Digit(icao[2 * k]) + Hex.Digit(icao[2 * k + 1]))
      && (forall k :: 0 <= k < 8 ==> d[12..20][k] == ms.value.Floor / Pow256(k) % 256)
      && d[20] == recordType && d[21..] == payload
  {
    var i, t := EncodeIcao(icao).value, EncodeTimestamp(ms).value;
    FlatParts(i, t, recordType, payload);
    forall k | 0 <= k < 8 ensures t[k] == ms.value.Floor / Pow256(k) % 256 { ByteOfNumber(ms.value.Floor, 8, k); }
    AddressBytes(icao);
    var d := Flat(i, t, recordType, payload);
    forall k | 0 <= k < 3 ensures d[9 + k] == d[9..12][k] {}
    forall k | 0 <= k < 8 ensures d[k] == "AIRCHIVE"[k] as int { assert d[k] == d[..8][k]; }
  }

  lemma AddressBytes(icao: string)
    requires IsIcao(icao)
    ensures forall k :: 0 <= k < 3 ==>
      EncodeIcao(icao).value[k] == 16 * Hex.Digit(icao[2 * k]) + Hex.Digit(icao[2 * k + 1])
  {
  }

  /**
   Parsing gives back the upper-case address, the floored timestamp, the type and the payload,
   exactly when the type is known and the timestamp is a safe integer.
   */
  lemma ParseInvertsBuild(icao: string, ms: Number, recordType: Byte, payload: Bytes)
    requires IsIcao(icao) && ms.Finite? && ms.value >= 0.0
    ensures var d := BuildPayload(icao, ms, recordType, payload);
      && d.Some?
      && (ParsePayload(d.value) == Some(Parsed(Upper(icao), ms.value.Floor, recordType, payload))
          <==> IsRecordType(recordType) && ms.value.Floor <= MAX_SAFE)
  {
    var n := ms.value.Floor;
    var i, t := EncodeIcao(icao).value, LittleEndian(n, 8);
    FlatParts(i, t, recordType, payload);
    IcaoRoundTrip(icao);
    TimestampReads(n);
    var d := Flat(i, t, recordType, payload);
    assert ParsePayload(d) == if DecodeTimestamp(t).None? || !IsRecordType(recordType) then None
      else Some(Parsed(DecodeIcao(i), DecodeTimestamp(t).value, recordType, payload));
  }

  /** Eight bytes give the number back exactly when it is a safe integer. */
  lemma TimestampReads(n: nat)
    ensures DecodeTimestamp(LittleEndian(n, 8)) == Some(n) <==> n <= MAX_SAFE
  {
    LittleEndianReads(n, 8);
    EightBytes();
    if n <= MAX_SAFE { assert n % TWO_64 == n; }
  }

  /** Whatever parses was built from what it parses to, byte for byte. */
  lemma BuildInvertsParse(data: Bytes)
    requires ParsePayload(data).Some?
    ensures var p := ParsePayload(data).value;
      BuildPayload(p.icao, Finite(p.timestamp as real), p.recordType, p.payload) == Some(data)
  {
    IcaoRebuilds(data[9..12]);
    LittleEndianWrites(data[12..20]);
    var n := FromLittleEndian(data[12..20]);
    assert (n as real).Floor == n;
    assert data == data[..8] + [data[8]] + data[9..12] + data[12..20] + [data[20]] + data[21..];
  }

  // ---------- the script form flattens to the flat form ----------

  /** A push opcode announces the length it was made for, unless that length is 0 or reads as negative. */
  lemma HeadOfPush(data: Bytes, rest: Bytes)
    requires Push(data).Some?
    ensures var s := Push(data).value + rest;
      ReadHead(s) == if |data| == 0 then BadHead
                     else if |data| >= TWO_31 then SignedHead
                     else Head(|PushOpcode(|data|).value|, |data|)
  {
    var n, opcode := |data|, PushOpcode(|data|).value;
    var s := Push(data).value + rest;
    assert s == opcode + (data + rest);
    if 75 < n <= 255 { assert s[1] == n; }
    else if 255 < n <= 65_535 { TwoByteHead(s, n, data + rest); }
    else if n > 65_535 { FourByteHead(s, n, data + rest); }
  }

  lemma TwoByteHead(s: Bytes, n: nat, tail: Bytes)
    requires n < 0x1_0000 && s == [0x4d] + LittleEndian(n, 2) + tail
    ensures ReadHead(s) == Head(3, n)
  {
    EightBytes();
    LittleEndianReads(n, 2);
    assert s[1..3] == LittleEndian(n, 2);
  }

  lemma FourByteHead(s: Bytes, n: nat, tail: Bytes)
    requires n < TWO_32 && s == [0x4e] + LittleEndian(n, 4) + tail
    ensures ReadHead(s) == if n >= TWO_31 then SignedHead else Head(5, n)
  {
    EightBytes();
    LittleEndianReads(n, 4);
    assert s[0] == 0x4e && |s| >= 5;
    assert s[1..5] == LittleEndian(n, 4);
    assert FromLittleEndian(s[1..5]) == n;
  }

  lemma PushParts(data: Bytes, rest: Bytes)
    requires Push(data).Some?
    ensures var k, s := |PushOpcode(|data|).value|, Push(data).value + rest;
      |s| == k + |data| + |rest| && s != [] && s[k..k + |data|] == data && s[k + |data|..] == rest
  {
    var opcode := PushOpcode(|data|).value;
    assert Push(data).value + rest == opcode + data + rest;
  }

  lemma ReadOnePush(data: Bytes, rest: Bytes)
    requires 0 < |data| < TWO_31 && ReadPushes(rest).Pushes?
    ensures Push(data).Some? && ReadPushes(Push(data).value + rest) == Pushes([data] + ReadPushes(rest).list)
  {
    HeadOfPush(data, rest);
    PushParts(data, rest);
  }

  lemma {:induction false} ReadAllPushes(fields: seq<Bytes>)
    requires forall k :: 0 <= k < |fields| ==> 0 < |fields[k]| < TWO_31
    ensures Script(fields).Some? && ReadPushes(Script(fields).value) == Pushes(fields)
  {
    if fields != [] {
      ReadAllPushes(fields[1..]);
      ReadOnePush(fields[0], Script(fields[1..]).value);
      assert fields == [fields[0]] + fields[1..];
    }
  }

  lemma ConcatSix(a: Bytes, b: Bytes, c: Bytes, d: Bytes, e: Bytes, f: Bytes)
    ensures Concat([a, b, c, d, e, f]) == a + b + c + d + e + f
  {
    assert [f][1..] == [] && [e, f][1..] == [f] && [d, e, f][1..] == [e, f] && [c, d, e, f][1..] == [d, e, f];
    assert [b, c, d, e, f][1..] == [c, d, e, f] && [a, b, c, d, e, f][1..] == [b, c, d, e, f];
    assert Concat([f]) == f;
    assert Concat([e, f]) == e + f;
    assert Concat([d, e, f]) == d + e + f;
    assert Concat([c, d, e, f]) == c + d + e + f;
    assert Concat([b, c, d, e, f]) == b + c + d + e + f;
  }

  lemma AfterPrefix(body: Bytes)
    ensures DataStart([0x00, 0x6a] + body) == Some(2) && ([0x00, 0x6a] + body)[2..] == body
  {
  }

  /** How the last push announces its length: in the opcode, or in one, two or four bytes after it. */
  function Announced(n: nat): Bytes
    requires n < TWO_32
  {
    if n < 76 then [n]
    else if n < 256 then [76, n]
    else if n < 65_536 then [77, n % 256, n / 256]
    else [78, n % 256, n / 256 % 256, n / 65_536 % 256, n / 16_777_216]
  }

  lemma AnnouncedIs(n: nat)
    requires n < TWO_32
    ensures PushOpcode(n) == Some(Announced(n))
  {
    if n >= 65_536 {
      assert LittleEndian(n, 4) == [n % 256] + LittleEndian(n / 256, 3);
      DivideTwice(n, 256, 256);
      DivideTwice(n, 65_536, 256);
      FourWritten(n);
      assert [0x4e] + LittleEndian(n, 4) == Announced(n);
    } else if n >= 256 {
      TwoWritten(n);
      assert [0x4d] + LittleEndian(n, 2) == Announced(n);
    } else if n >= 76 {
      assert PushOpcode(n).value == Announced(n);
    }
  }

  lemma TwoWritten(n: nat)
    requires n < 65_536
    ensures LittleEndian(n, 2) == [n % 256, n / 256]
  {
    assert LittleEndian(n / 256, 1) == [n / 256 % 256] + LittleEndian(n / 256 / 256, 0);
  }

  lemma FourWritten(n: nat)
    requires n < TWO_32 && n / 256 / 256 == n / 65_536 && n / 65_536 / 256 == n / 16_777_216
    ensures LittleEndian(n, 4) == [n % 256, n / 256 % 256, n / 65_536 % 256, n / 16_777_216]
  {
    TwoWritten(n / 65_536);
    assert LittleEndian(n / 256, 3) == [n / 256 % 256] + LittleEndian(n / 65_536, 2);
  }

  /** The script is OP_FALSE OP_RETURN, then each field of the envelope as one push. */
  lemma ScriptLayout(icao: string, ms: Number, recordType: Byte, payload: Bytes)
    requires IsIcao(icao) && ms.Finite? && ms.value >= 0.0 && |payload| < TWO_32
    ensures var d := BuildPayload(icao, ms, recordType, payload).value;
      |d| == 21 + |payload| &&
      BuildScript(icao, ms, recordType, payload)
      == Some([0, 106] + (([8] + d[..8]) + ([1] + d[8..9]) + ([3] + d[9..12]) + ([8] + d[12..20])
                          + ([1] + d[20..21]) + (Announced(|payload|) + payload)))
  {
    var i, t := EncodeIcao(icao).value, EncodeTimestamp(ms).value;
    FlatParts(i, t, recordType, payload);
    AnnouncedIs(|payload|);
    var d := Flat(i, t, recordType, payload);
    assert d[8..9] == [PROTOCOL_VERSION] && d[20..21] == [recordType];
    SixPushes(PROTOCOL_ID, [PROTOCOL_VERSION], i, t, [recordType], payload);
    ConcatSix([8] + PROTOCOL_ID, [1] + [PROTOCOL_VERSION], [3] + i, [8] + t, [1] + [recordType],
              Announced(|payload|) + payload);
  }

  lemma SixPushes(a: Bytes, b: Bytes, c: Bytes, d: Bytes, e: Bytes, f: Bytes)
    requires |a| <= 75 && |b| <= 75 && |c| <= 75 && |d| <= 75 && |e| <= 75 && PushOpcode(|f|).Some?
    ensures Script([a, b, c, d, e, f])
         == Some(Concat([[|a|] + a, [|b|] + b, [|c|] + c, [|d|] + d, [|e|] + e, PushOpcode(|f|).value + f]))
  {
    PushesInARow([a, b, c, d, e, f],
                 [[|a|] + a, [|b|] + b, [|c|] + c, [|d|] + d, [|e|] + e, PushOpcode(|f|).value + f]);
  }

  lemma {:induction false} PushesInARow(fields: seq<Bytes>, pushes: seq<Bytes>)
    requires |fields| == |pushes| && forall k :: 0 <= k < |fields| ==> Push(fields[k]) == Some(pushes[k])
    ensures Script(fields) == Some(Concat(pushes))
    decreases |fields|
  {
    if fields != [] { PushesInARow(fields[1..], pushes[1..]); }
  }

  /** Every script built with a payload of 1 to 2^31 - 1 bytes flattens to the flat form of its fields. */
  lemma ScriptFlattens(icao: string, ms: Number, recordType: Byte, payload: Bytes)
    requires IsIcao(icao) && ms.Finite? && ms.value >= 0.0 && 0 < |payload| < TWO_31
    ensures var script := BuildScript(icao, ms, recordType, payload);
      && script.Some?
      && Flatten(script.value) == Envelope(BuildPayload(icao, ms, recordType, payload).value)
  {
    var i, t := EncodeIcao(icao).value, EncodeTimestamp(ms).value;
    var fields := Fields(i, t, recordType, payload);
    ReadAllPushes(fields);
    AfterPrefix(Script(fields).value);
    ForwardReads([0x00, 0x6a] + Script(fields).value, 2, |Script(fields).value| + 2);
    ConcatSix(PROTOCOL_ID, [PROTOCOL_VERSION], i, t, [recordType], payload);
  }

  lemma {:induction false} LastPushDecides(fields: seq<Bytes>, last: Bytes)
    requires forall k :: 0 <= k < |fields| ==> 0 < |fields[k]| < TWO_31
    requires Push(last).Some? && (last == [] || |last| >= TWO_31)
    ensures Script(fields + [last]).Some?
    ensures ReadPushes(Script(fields + [last]).value) == if last == [] then NotPushes else SignedLength
  {
    if fields == [] {
      assert [last][1..] == [] && fields + [last] == [last];
      HeadOfPush(last, []);
      PushParts(last, []);
      assert Push(last).value + [] == Push(last).value;
      assert Script([last]).value == Push(last).value;
    } else {
      assert (fields + [last])[1..] == fields[1..] + [last];
      LastPushDecides(fields[1..], last);
      var rest := Script(fields[1..] + [last]).value;
      HeadOfPush(fields[0], rest);
      PushParts(fields[0], rest);
    }
  }

  /** An empty payload is pushed as opcode 0, which the parser does not take for a push. */
  lemma EmptyPayloadIsRefused(icao: string, ms: Number, recordType: Byte)
    requires IsIcao(icao) && ms.Finite? && ms.value >= 0.0
    ensures var script := BuildScript(icao, ms, recordType, []);
      script.Some? && Flatten(script.value) == NotEnvelope
  {
    var i, t := EncodeIcao(icao).value, EncodeTimestamp(ms).value;
    var front := [PROTOCOL_ID, [PROTOCOL_VERSION], i, t, [recordType]];
    assert Fields(i, t, recordType, []) == front + [[]];
    LastPushDecides(front, []);
    AfterPrefix(Script(front + [[]]).value);
    ForwardReads([0x00, 0x6a] + Script(front + [[]]).value, 2, |Script(front + [[]]).value| + 2);
  }

  /** From any push of a built script: a last push that reads as negative leads before the script. */
  lemma {:induction false} HugePushFails(script: Bytes, i: nat, fields: seq<Bytes>, last: Bytes, n: nat)
    requires i < |script| < TWO_32 && n > |fields| && Push(last).Some? && |last| >= TWO_31
    requires forall k :: 0 <= k < |fields| ==> 0 < |fields[k]| < TWO_31
    requires Script(fields + [last]).Some? && script[i..] == Script(fields + [last]).value
    ensures ReadFrom(script, i, n) == Fails
    decreases |fields|
  {
    if fields == [] {
      assert fields + [last] == [last];
      HugeJump(script, i, last);
    } else {
      var rest := fields[1..] + [last];
      assert (fields + [last])[1..] == rest && (fields + [last])[0] == fields[0];
      NotEmptyScript(rest);
      var next := FieldJump(script, i, fields[0], Script(rest).value);
      HugePushFails(script, next, fields[1..], last, n - 1);
    }
  }

  lemma FieldJump(script: Bytes, i: nat, field: Bytes, rest: Bytes) returns (next: nat)
    requires i < |script| && 0 < |field| < TWO_31 && Push(field).Some? && rest != []
    requires script[i..] == Push(field).value + rest
    ensures i < next < |script| && JumpAt(script, i) == To(next, field) && script[next..] == rest
  {
    var k, m := |PushOpcode(|field|).value|, |field|;
    HeadOfPush(field, rest);
    PushParts(field, rest);
    SliceOfDrop(script, i, k, k + m);
    next := i + k + m;
  }

  lemma NotEmptyScript(fields: seq<Bytes>)
    requires fields != [] && Script(fields).Some?
    ensures Script(fields).value != []
  {
  }

  lemma HugeJump(script: Bytes, i: nat, last: Bytes)
    requires i < |script| < TWO_32 && Push(last).Some? && |last| >= TWO_31
    requires Script([last]).Some? && script[i..] == Script([last]).value
    ensures JumpAt(script, i) == Refused
  {
    var opcode := PushOpcode(|last|).value;
    assert [last][1..] == [] && Script([last]).value == opcode + last;
    assert Push(last).value + [] == Push(last).value;
    assert ReadHead(script[i..]) == SignedHead by { HeadOfPush(last, []); }
    HeadParts(script, i);
    assert script[i..][1..5] == LittleEndian(|last|, 4);
    LittleEndianReads(|last|, 4);
    EightBytes();
  }

  lemma {:induction false} LastField(fields: seq<Bytes>, last: Bytes)
    requires Script(fields + [last]).Some?
    ensures Push(last).Some?
  {
    if fields == [] { assert (fields + [last])[0] == last; }
    else {
      assert (fields + [last])[1..] == fields[1..] + [last];
      LastField(fields[1..], last);
    }
  }

  /** A payload of 2^31 bytes or more, in a script that a four-byte length can span, is refused. */
  lemma HugePayloadIsRefused(icao: string, ms: Number, recordType: Byte, payload: Bytes)
    requires IsIcao(icao) && ms.Finite? && ms.value >= 0.0 && |payload| >= TWO_31
    requires BuildScript(icao, ms, recordType, payload).Some?
    requires |BuildScript(icao, ms, recordType, payload).value| < TWO_32
    ensures Flatten(BuildScript(icao, ms, recordType, payload).value) == NotEnvelope
  {
    var i, t := EncodeIcao(icao).value, EncodeTimestamp(ms).value;
    var front := [PROTOCOL_ID, [PROTOCOL_VERSION], i, t, [recordType]];
    assert Fields(i, t, recordType, payload) == front + [payload];
    var body := Script(front + [payload]).value;
    AfterPrefix(body);
    NotEmptyScript(front + [payload]);
    LastField(front, payload);
    HugePushFails([0x00, 0x6a] + body, 2, front, payload, |body| + 2);
  }
}
