/** Variable-length integers (blocktemplate/serialize.go:86-127): unsigned LEB128, section 7.6 of
    the DWARF 4 standard, read from and written to a byte stream. */
module VarInt {
  import opened Common
  import opened Hex

  type uint64 = n: int | 0 <= n < TWO_TO_64

  /** What is left of the input after a value has been read, or a failed read. */
  datatype Parsed<+T> = Fail | Done(value: T, rest: seq<byte>)
  {
    predicate IsFailure() { Fail? }
    function PropagateFailure<U>(): Parsed<U> requires Fail? { Fail }
    function Extract(): (T, seq<byte>) requires Done? { (value, rest) }
  }

  /** The bytes that PackVarInt writes. */
  function Pack(n: nat): (s: seq<byte>)
    ensures s != []
  {
    if n < 128 then [n] else [n % 128 + 128] + Pack(n / 128)
  }

  /** The number spelled by a varint at the head of the input, before it is cut to 64 bits. */
  function ParseRaw(s: seq<byte>): (r: Parsed<nat>)
    ensures r.Done? ==> |r.rest| < |s| && r.rest == s[|s| - |r.rest|..]
  {
    if s == [] then Fail
    else if s[0] < 128 then Done(s[0], s[1..])
    else
      match ParseRaw(s[1..])
      case Fail => Fail
      case Done(v, rest) => Done(s[0] - 128 + 128 * v, rest)
  }

  /** UnPackVarInt followed by a conversion to an unsigned type with `bound` values; the result
      of UnPackVarInt itself is cut to 64 bits. */
  function ParseUint(s: seq<byte>, bound: nat): Parsed<nat>
    requires bound > 0
  {
    match ParseRaw(s)
    case Fail => Fail
    case Done(v, rest) => Done(v % TWO_TO_64 % bound, rest)
  }

  /** Every number survives packing and parsing, and leaves exactly what follows it. */
  lemma {:induction false} RawRoundTrip(n: nat, rest: seq<byte>)
    ensures ParseRaw(Pack(n) + rest) == Done(n, rest)
  {
    var s := Pack(n) + rest;
    if n < 128 {
      assert s[0] == n && s[1..] == rest;
    } else {
      var q, low := n / 128, n % 128;
      RawRoundTrip(q, rest);
      assert s[0] == low + 128 && s[1..] == Pack(q) + rest;
      assert low + 128 * q == n;
    }
  }

  lemma UintRoundTrip(n: nat, bound: nat, rest: seq<byte>)
    requires n < bound <= TWO_TO_64
    ensures ParseUint(Pack(n) + rest, bound) == Done(n, rest)
  {
    hide Pack, ParseRaw;
    RawRoundTrip(n, rest);
    SmallMod(n, TWO_TO_64);
    SmallMod(n, bound);
  }

  lemma SmallMod(n: nat, bound: nat)
    requires n < bound
    ensures n % bound == n
  {
  }

  /** The bytes a varint took. */
  function Taken(s: seq<byte>): seq<byte>
    requires ParseRaw(s).Done?
  {
    s[..|s| - |ParseRaw(s).rest|]
  }

  /** No longer than it needs to be: the last group is not zero, unless it is the only one. */
  predicate Minimal(e: seq<byte>) {
    |e| == 1 || (|e| > 1 && e[|e| - 1] != 0)
  }

  lemma {:induction false} PackIsMinimal(n: nat)
    ensures Minimal(Pack(n)) && (n > 0 ==> Pack(n)[|Pack(n)| - 1] != 0)
  {
    if n >= 128 {
      PackIsMinimal(n / 128);
    }
  }

  /** A minimal spelling is the one that packing produces; a spelling of 0 whose first group is
      also its last is minimal too. */
  lemma {:induction false} MinimalIsPack(s: seq<byte>)
    requires ParseRaw(s).Done?
    ensures Minimal(Taken(s)) <==> Taken(s) == Pack(ParseRaw(s).value)
    ensures |Taken(s)| > 1 && Minimal(Taken(s)) ==> ParseRaw(s).value >= 128
  {
    if s[0] < 128 {
      assert Taken(s) == [s[0]];
    } else {
      var t := s[1..];
      MinimalIsPack(t);
      var n, m := ParseRaw(s).value, ParseRaw(t).value;
      assert Taken(s) == [s[0]] + Taken(t);
      assert Taken(s)[1..] == Taken(t);
      PackIsMinimal(n);
      assert n / 128 == m && n % 128 == s[0] - 128;
      if Minimal(Taken(s)) {
        assert Minimal(Taken(t));
        assert m > 0 by {
          if |Taken(t)| == 1 {
            assert Taken(t) == [t[0]] && t[0] < 128;
          }
        }
      }
    }
  }

  /** The number fits the field and is spelled minimally: then, and only then, packing the field
      again gives back the input. */
  ghost predicate Exact(s: seq<byte>, bound: nat) {
    ParseRaw(s).Done? && Minimal(Taken(s)) && ParseRaw(s).value < bound
  }

  lemma ExactRepacks(s: seq<byte>, bound: nat)
    requires 0 < bound <= TWO_TO_64 && Exact(s, bound)
    ensures ParseUint(s, bound).Done?
    ensures Pack(ParseUint(s, bound).value) + ParseUint(s, bound).rest == s
  {
    hide Pack;
    MinimalIsPack(s);
    SmallMod(ParseRaw(s).value, TWO_TO_64);
    SmallMod(ParseRaw(s).value, bound);
    assert Taken(s) + ParseRaw(s).rest == s;
  }

  lemma PackedIsExact(n: nat, bound: nat, rest: seq<byte>)
    requires n < bound
    ensures Exact(Pack(n) + rest, bound)
  {
    hide Pack;
    RawRoundTrip(n, rest);
    PackIsMinimal(n);
    assert Taken(Pack(n) + rest) == Pack(n);
  }

  /** One byte below 128. */
  lemma OneByte(n: nat)
    ensures |Pack(n)| == 1 <==> n < 128
  {
  }

  /** Five bytes for the timestamps of the years 1978 to 3058. */
  lemma FiveBytes(n: nat)
    ensures |Pack(n)| == 5 <==> 0x1000_0000 <= n < 0x8_0000_0000
  {
    var n1 := n / 128;
    var n2 := n1 / 128;
    var n3 := n2 / 128;
    var n4 := n3 / 128;
    assert n >= 128 ==> |Pack(n)| == 1 + |Pack(n1)|;
    assert n1 >= 128 ==> |Pack(n1)| == 1 + |Pack(n2)|;
    assert n2 >= 128 ==> |Pack(n2)| == 1 + |Pack(n3)|;
    assert n3 >= 128 ==> |Pack(n3)| == 1 + |Pack(n4)|;
    assert |Pack(n4)| == 1 <==> n4 < 128;
  }

  // ------------------------------------------------------------------------------------------
  // The loops of the source, on a byte stream

  /** bytes.Buffer, as far as it is used here: reads take bytes off the front, writes append. */
  class Buffer {
    var data: seq<byte>

    constructor (data: seq<byte>)
      ensures this.data == data
    {
      this.data := data;
    }

    method Write(bytes: seq<byte>)
      modifies this
      ensures data == old(data) + bytes
    {
      data := data + bytes;
    }

    /** Read into a zeroed slice of n bytes: fails only on an empty buffer, and accepts fewer
        bytes than asked for. */
    method Read(n: nat) returns (r: Option<seq<byte>>)
      modifies this
      ensures r == (match ReadBytes(old(data), n) case Fail => None case Done(bytes, _) => Some(bytes))
      ensures data == (match ReadBytes(old(data), n) case Fail => old(data) case Done(_, rest) => rest)
    {
      if |data| == 0 {
        return if n == 0 then Some([]) else None;
      }
      var k := if n < |data| then n else |data|;
      r := Some(data[..k] + Zeros(n - k));
      data := data[k..];
    }
  }

  function Zeros(n: nat): (z: seq<byte>)
    ensures |z| == n && forall i | 0 <= i < n :: z[i] == 0
  {
    seq(n, i => 0)
  }

  /** What a read of n bytes yields, short reads included. */
  function ReadBytes(s: seq<byte>, n: nat): (r: Parsed<seq<byte>>)
    ensures r.Done? ==> |r.value| == n
  {
    if s == [] then if n == 0 then Done([], []) else Fail
    else
      var k := if n < |s| then n else |s|;
      Done(s[..k] + Zeros(n - k), s[k..])
  }

  lemma ReadBytesRoundTrip(bytes: seq<byte>, rest: seq<byte>)
    ensures ReadBytes(bytes + rest, |bytes|) == Done(bytes, rest)
  {
    var s := bytes + rest;
    if s != [] {
      assert s[..|bytes|] == bytes && s[|bytes|..] == rest;
      assert bytes + Zeros(0) == bytes;
    }
  }

  /** PackVarInt. */
  method PackVarInt(writer: Buffer, value: uint64)
    modifies writer
    ensures writer.data == old(writer.data) + Pack(value)
  {
    var varInt: nat := value;
    while varInt >= 0x80
      invariant writer.data + Pack(varInt) == old(writer.data) + Pack(value)
    {
      var dest := varInt % 128 + 128;
      assert writer.data + ([dest] + Pack(varInt / 128)) == writer.data + [dest] + Pack(varInt / 128);
      varInt := varInt / 128;
      writer.Write([dest]);
    }
    writer.Write([varInt]);
  }

  /** Seven-bit groups, least significant first. */
  function Value(groups: seq<byte>): nat {
    if groups == [] then 0 else groups[0] + 128 * Value(groups[1..])
  }

  function Power128(i: nat): nat {
    if i == 0 then 1 else 128 * Power128(i - 1)
  }

  /** `uint64(b) << (i * 7)`: a shift by 64 or more leaves nothing. */
  function Shifted(b: byte, i: nat): uint64 {
    if i >= 10 then 0 else b * Power128(i) % TWO_TO_64
  }

  lemma {:induction false} HighGroupsVanish(i: nat)
    requires i >= 10
    ensures Power128(i) % TWO_TO_64 == 0
  {
    if i == 10 {
      PowerTen();
    } else {
      HighGroupsVanish(i - 1);
      var k := Power128(i - 1) / TWO_TO_64;
      assert Power128(i) == (128 * k) * TWO_TO_64;
    }
  }

  lemma PowerTen()
    ensures Power128(10) == 64 * TWO_TO_64
  {
    assert Power128(3) == 0x20_0000;
    assert Power128(6) == 0x400_0000_0000;
    assert Power128(9) == 0x8000_0000_0000_0000;
  }

  lemma Multiple(x: int)
    ensures (x * TWO_TO_64) % TWO_TO_64 == 0
  {
  }

  lemma Regroup(b: int, k: int)
    ensures b * (k * TWO_TO_64) == (b * k) * TWO_TO_64
  {
  }

  lemma ShiftedIsTerm(b: byte, i: nat)
    ensures Shifted(b, i) == b * Power128(i) % TWO_TO_64
  {
    hide Power128;
    if i >= 10 {
      HighGroupsVanish(i);
      var p := Power128(i);
      var k := p / TWO_TO_64;
      assert p == k * TWO_TO_64;
      Regroup(b, k);
      Multiple(b * k);
    }
  }

  lemma {:induction false} ValueSnoc(groups: seq<byte>, b: byte)
    ensures Value(groups + [b]) == Value(groups) + b * Power128(|groups|)
  {
    if groups == [] {
    } else {
      ValueSnoc(groups[1..], b);
      assert (groups + [b])[1..] == groups[1..] + [b];
      var p := Power128(|groups| - 1);
      assert 128 * (b * p) == b * (128 * p);
    }
  }

  lemma AddMod(a: nat, b: nat)
    ensures (a % TWO_TO_64 + b % TWO_TO_64) % TWO_TO_64 == (a + b) % TWO_TO_64
  {
  }

  /** A parse that goes on from groups already read. */
  function Continue(groups: seq<byte>, p: Parsed<nat>): Parsed<nat> {
    match p
    case Fail => Fail
    case Done(v, rest) => Done(Value(groups) + v * Power128(|groups|), rest)
  }

  lemma OneGroup(groups: seq<byte>, s: seq<byte>)
    requires s != []
    ensures s[0] >= 128 ==>
              Continue(groups, ParseRaw(s)) == Continue(groups + [s[0] - 128], ParseRaw(s[1..]))
    ensures s[0] < 128 ==> Continue(groups, ParseRaw(s)) == Done(Value(groups + [s[0]]), s[1..])
  {
    hide Value;
    if s[0] >= 128 {
      ValueSnoc(groups, s[0] - 128);
      if ParseRaw(s[1..]).Done? {
        GroupStep(s[0] - 128, ParseRaw(s[1..]).value, Power128(|groups|));
      }
    } else {
      ValueSnoc(groups, s[0]);
    }
  }

  lemma GroupStep(low: nat, high: nat, p: nat)
    ensures (low + 128 * high) * p == low * p + high * (128 * p)
  {
  }

  /** UnPackVarInt: collect the groups, then add them up, shifted, in 64 bits. */
  method UnPackVarInt(reader: Buffer) returns (r: Option<uint64>)
    modifies reader
    ensures r == (match ParseRaw(old(reader.data)) case Fail => None case Done(v, _) => Some(v % TWO_TO_64))
    ensures r.Some? ==> reader.data == ParseRaw(old(reader.data)).rest
  {
    hide ParseRaw, Value, Power128;
    ghost var all := reader.data;
    var varIntBytes: seq<byte> := [];
    NoGroups(ParseRaw(all));
    while true
      invariant ParseRaw(all) == Continue(varIntBytes, ParseRaw(reader.data))
      decreases |reader.data|
    {
      ghost var before := reader.data;
      var oneByte := reader.Read(1);
      if oneByte.None? {
        NothingParses();
        return None;
      }
      var b := oneByte.value[0];
      OneGroup(varIntBytes, before);
      if b < 0x80 {
        varIntBytes := varIntBytes + [b % 128];
        break;
      }
      varIntBytes := varIntBytes + [b % 128];
    }
    var result := SumGroups(varIntBytes);
    r := Some(result);
  }

  lemma NoGroups(p: Parsed<nat>)
    ensures Continue([], p) == p
  {
  }

  lemma NothingParses()
    ensures ParseRaw([]) == Fail
  {
  }

  /** The second loop. */
  method SumGroups(varIntBytes: seq<byte>) returns (result: uint64)
    ensures result == Value(varIntBytes) % TWO_TO_64
  {
    hide Shifted;
    result := 0;
    for i := 0 to |varIntBytes|
      invariant result == Value(varIntBytes[..i]) % TWO_TO_64
    {
      assert varIntBytes[..i + 1] == varIntBytes[..i] + [varIntBytes[i]];
      ValueSnoc(varIntBytes[..i], varIntBytes[i]);
      ShiftedIsTerm(varIntBytes[i], i);
      AddMod(Value(varIntBytes[..i]), varIntBytes[i] * Power128(i));
      result := (result + Shifted(varIntBytes[i], i)) % TWO_TO_64;
    }
    assert varIntBytes[..|varIntBytes|] == varIntBytes;
  }
}
