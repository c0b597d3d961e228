/** The frame codec of record.go: a 29-byte header, the topic and the payload, sealed with a checksum. */
module Records {
  import opened Bytes
  import opened Crc32
  import opened Results

  const MAGIC_1: byte := 0x57
  const MAGIC_2: byte := 0x53
  const WIRE_VERSION: byte := 0x01
  const HEADER_SIZE := 29
  const MAX_TOPIC := 65535

  type uint64 = x: int | 0 <= x < 0x1_0000_0000_0000_0000
  type int64 = x: int | -0x8000_0000_0000_0000 <= x < 0x8000_0000_0000_0000

  /** A record; the timestamp is its count of nanoseconds since the epoch. */
  datatype Record = Record(
    offset: nat, id: uint64, timestamp: int64, topic: seq<byte>, payload: seq<byte>, checksum: nat)

  /** Go's conversions between int64 and uint64. */
  function ToUnsigned(t: int64): uint64 {
    if t < 0 then t + 0x1_0000_0000_0000_0000 else t
  }

  function ToSigned(u: uint64): int64 {
    if u >= 0x8000_0000_0000_0000 then u - 0x1_0000_0000_0000_0000 else u
  }

  /** The records the header can describe: wider topics are refused, wider payloads are not. */
  predicate Encodable(r: Record) {
    |r.topic| <= MAX_TOPIC && |r.payload| < 0x1_0000_0000
  }

  /** The part of a frame that the checksum seals. */
  function Body(r: Record): (s: seq<byte>)
    ensures |s| == 22 + |r.topic| + |r.payload|
  {
    BigEndian(r.id, 8) + BigEndian(ToUnsigned(r.timestamp), 8)
    + BigEndian(|r.topic|, 2) + BigEndian(|r.payload|, 4) + r.topic + r.payload
  }

  function Encode(r: Record): (s: seq<byte>)
    ensures |s| == HEADER_SIZE + |r.topic| + |r.payload|
  {
    [MAGIC_1, MAGIC_2, WIRE_VERSION] + BigEndian(Checksum(Body(r)), 4) + Body(r)
  }

  predicate MagicOk(data: seq<byte>)
    requires |data| >= 3
  {
    data[0] == MAGIC_1 && data[1] == MAGIC_2 && data[2] == WIRE_VERSION
  }

  /** The frame length a header claims. */
  function ClaimedLength(data: seq<byte>): (n: nat)
    requires |data| >= HEADER_SIZE
    ensures n >= HEADER_SIZE
  {
    HEADER_SIZE + FromBig(data[23..25]) + FromBig(data[25..29])
  }

  function ClaimedId(data: seq<byte>): uint64
    requires |data| >= HEADER_SIZE
  {
    var id := FromBig(data[7..15]);
    assert Radix(8) == 0x1_0000_0000_0000_0000;
    id
  }

  function Decode(data: seq<byte>): Result<Record> {
    if |data| < HEADER_SIZE then Err(TruncatedData)
    else if !MagicOk(data) then Err(CorruptRecord)
    else if |data| < ClaimedLength(data) then Err(TruncatedData)
    else if FromBig(data[3..7]) != Checksum(data[7..ClaimedLength(data)]) then Err(CorruptRecord)
    else
      var total := ClaimedLength(data);
      var topicEnd := HEADER_SIZE + FromBig(data[23..25]);
      assert Radix(8) == 0x1_0000_0000_0000_0000;
      Ok(Record(0, ClaimedId(data), ToSigned(FromBig(data[15..23])),
                data[HEADER_SIZE..topicEnd], data[topicEnd..total], FromBig(data[3..7])))
  }

  // ----- The methods of record.go.

  /** `s` with `x` written over it at `at`. */
  function Splice(s: seq<byte>, at: nat, x: seq<byte>): (t: seq<byte>)
    requires at + |x| <= |s|
    ensures |t| == |s|
  {
    s[..at] + x + s[at + |x|..]
  }

  /** Writing just behind what stands at `lo` extends it and leaves everything before it alone. */
  lemma SpliceExtends(s: seq<byte>, lo: nat, at: nat, x: seq<byte>)
    requires lo <= at && at + |x| <= |s|
    ensures Splice(s, at, x)[lo..at + |x|] == s[lo..at] + x
    ensures Splice(s, at, x)[..lo] == s[..lo]
  {
  }

  lemma BigEndianStep(v: nat, n: nat)
    ensures BigEndian(v, n) == if n == 0 then [] else BigEndian(v / 256, n - 1) + [v % 256]
  {
  }

  lemma SpliceFront(s: seq<byte>, at: nat, b: byte, x: seq<byte>)
    requires at + 1 + |x| <= |s|
    ensures Splice(s, at, [b] + x) == Splice(s, at + 1, x)[at := b]
  {
  }

  lemma SpliceNothing(s: seq<byte>, at: nat)
    requires at <= |s|
    ensures Splice(s, at, []) == s
  {
  }

  /** One byte more of the value `v` in front of those written. */
  lemma BigStep(v: nat, n: nat, rest: nat, i: nat, tail: seq<byte>, was: seq<byte>, at: nat)
    requires 0 < i <= n && |tail| == n - i && at + n <= |was|
    requires BigEndian(v, n) == BigEndian(rest, i) + tail
    ensures BigEndian(v, n) == BigEndian(rest / 256, i - 1) + ([rest % 256] + tail)
    ensures Splice(was, at + i - 1, [rest % 256] + tail) == Splice(was, at + i, tail)[at + i - 1 := rest % 256]
  {
    hide BigEndian, Splice;
    SpliceFront(was, at + i - 1, rest % 256, tail);
    BigEndianStep(rest, i);
    assert BigEndian(rest / 256, i - 1) + [rest % 256] + tail == BigEndian(rest / 256, i - 1) + ([rest % 256] + tail);
  }

  method PutBig(buf: array<byte>, at: nat, n: nat, v: nat)
    requires at + n <= buf.Length
    modifies buf
    ensures buf[..] == Splice(old(buf[..]), at, BigEndian(v, n))
  {
    hide BigEndian, Splice;
    ghost var was := buf[..];
    var i, rest := n, v;
    BigEndianStep(v, n);
    SpliceNothing(was, at + n);
    ghost var tail: seq<byte> := [];
    while i > 0
      invariant 0 <= i <= n && |tail| == n - i
      invariant BigEndian(v, n) == BigEndian(rest, i) + tail
      invariant buf[..] == Splice(was, at + i, tail)
    {
      BigStep(v, n, rest, i, tail, was, at);
      i := i - 1;
      buf[at + i] := rest % 256;
      tail := [rest % 256] + tail;
      rest := rest / 256;
    }
    BigEndianStep(rest, 0);
    assert [] + tail == tail;
  }

  method CopyInto(buf: array<byte>, at: nat, src: seq<byte>)
    requires at + |src| <= buf.Length
    modifies buf
    ensures buf[..] == Splice(old(buf[..]), at, src)
  {
    for i := 0 to |src|
      invariant buf[..] == old(buf[..at]) + src[..i] + old(buf[at + i..])
    {
      buf[at + i] := src[i];
    }
  }

  /** Writes the fields and the two texts behind the checksum's place. */
  method FillBody(buf: array<byte>, r: Record)
    requires buf.Length == |Encode(r)|
    modifies buf
    ensures buf[..3] == old(buf[..3]) && buf[7..] == Body(r)
  {
    ghost var was := buf[..];
    var topicEnd := HEADER_SIZE + |r.topic|;
    SpliceExtends(buf[..], 7, 7, BigEndian(r.id, 8));
    PutBig(buf, 7, 8, r.id);
    SpliceExtends(buf[..], 7, 15, BigEndian(ToUnsigned(r.timestamp), 8));
    PutBig(buf, 15, 8, ToUnsigned(r.timestamp));
    SpliceExtends(buf[..], 7, 23, BigEndian(|r.topic|, 2));
    PutBig(buf, 23, 2, |r.topic|);
    SpliceExtends(buf[..], 7, 25, BigEndian(|r.payload|, 4));
    PutBig(buf, 25, 4, |r.payload|);
    SpliceExtends(buf[..], 7, 29, r.topic);
    CopyInto(buf, 29, r.topic);
    SpliceExtends(buf[..], 7, topicEnd, r.payload);
    CopyInto(buf, topicEnd, r.payload);
    assert buf[..7] == was[..7];
    assert buf[..3] == buf[..7][..3] == was[..7][..3] == was[..3];
    assert buf[7..] == buf[..][7..topicEnd + |r.payload|];
  }

  method MarshalBinary(r: Record) returns (res: Result<seq<byte>>)
    ensures res == if |r.topic| > MAX_TOPIC then Err(PreconditionViolated) else Ok(Encode(r))
    ensures res.Ok? <==> |r.topic| < Radix(2)
    ensures res.Ok? ==> res.value[..3] == ['W' as int, 'S' as int, 1]
  {
    if |r.topic| > MAX_TOPIC {
      return Err(PreconditionViolated);
    }
    var bodyLen := |r.topic| + |r.payload|;
    var buf := new byte[HEADER_SIZE + bodyLen](i => 0);
    buf[0], buf[1], buf[2] := MAGIC_1, MAGIC_2, WIRE_VERSION;
    assert buf[..3] == [MAGIC_1, MAGIC_2, WIRE_VERSION];
    FillBody(buf, r);
    var sum := Checksum(buf[7..]);
    ghost var body := buf[..];
    PutBig(buf, 3, 4, sum);
    Radices();
    assert buf[..] == body[..3] + BigEndian(sum, 4) + body[7..];
    return Ok(buf[..]);
  }

  /** A record variable: the receiver that UnmarshalBinary fills in. */
  class RecordVar {
    var offset: nat
    var id: uint64
    var timestamp: int64
    var topic: seq<byte>
    var payload: seq<byte>
    var checksum: nat

    constructor ()
      ensures Value() == Record(0, 0, 0, [], [], 0)
    {
      offset, id, timestamp, topic, payload, checksum := 0, 0, 0, [], [], 0;
    }

    ghost function Value(): Record
      reads this
    {
      Record(offset, id, timestamp, topic, payload, checksum)
    }

    /** Fills in every field but the offset, or reports the error and leaves the receiver alone. */
    method UnmarshalBinary(data: seq<byte>) returns (err: Option<Error>)
      modifies this
      ensures match Decode(data)
              case Ok(r) => err == None && Value() == r.(offset := old(offset))
              case Err(e) => err == Some(e) && Value() == old(Value())
    {
      if |data| < HEADER_SIZE {
        return Some(TruncatedData);
      }
      if data[0] != MAGIC_1 || data[1] != MAGIC_2 || data[2] != WIRE_VERSION {
        return Some(CorruptRecord);
      }
      var topicLen := FromBig(data[23..25]);
      var payloadLen := FromBig(data[25..29]);
      var totalLen := HEADER_SIZE + topicLen + payloadLen;
      if |data| < totalLen {
        return Some(TruncatedData);
      }
      var expected := FromBig(data[3..7]);
      var computed := Checksum(data[7..totalLen]);
      if expected != computed {
        return Some(CorruptRecord);
      }
      id := ClaimedId(data);
      assert Radix(8) == 0x1_0000_0000_0000_0000;
      timestamp := ToSigned(FromBig(data[15..23]));
      topic := data[HEADER_SIZE..HEADER_SIZE + topicLen];
      checksum := expected;
      payload := data[HEADER_SIZE + topicLen..totalLen];
      return None;
    }
  }

  // ----- What the codec is for.

  /** The header fields of an encoding, whatever follows it. */
  lemma EncodeLayout(r: Record, pad: seq<byte>)
    ensures var f := Encode(r) + pad;
            && MagicOk(f) && f[3..7] == BigEndian(Checksum(Body(r)), 4) && f[7..|Encode(r)|] == Body(r)
            && f[7..15] == BigEndian(r.id, 8) && f[15..23] == BigEndian(ToUnsigned(r.timestamp), 8)
            && f[23..25] == BigEndian(|r.topic|, 2) && f[25..29] == BigEndian(|r.payload|, 4)
            && f[29..29 + |r.topic|] == r.topic && f[29 + |r.topic|..|Encode(r)|] == r.payload
  {
    hide BigEndian, Checksum, Body;
    var m: seq<byte> := [MAGIC_1, MAGIC_2, WIRE_VERSION];
    BodyLayout(r);
    FrameLayout(m, BigEndian(Checksum(Body(r)), 4), Body(r), pad);
    var f, n := Encode(r) + pad, 22 + |r.topic|;
    assert f[0] == m[0] && f[1] == m[1] && f[2] == m[2];
    assert f[7 + 0..7 + 8] == Body(r)[0..8] && f[7 + 8..7 + 16] == Body(r)[8..16];
    assert f[7 + 16..7 + 18] == Body(r)[16..18] && f[7 + 18..7 + 22] == Body(r)[18..22];
    assert f[7 + 22..7 + n] == Body(r)[22..n] && f[7 + n..7 + |Body(r)|] == Body(r)[n..|Body(r)|];
    assert f[7..7 + |Body(r)|] == Body(r);
  }

  lemma BodyLayout(r: Record)
    ensures var b, n := Body(r), 22 + |r.topic|;
            && b[0..8] == BigEndian(r.id, 8) && b[8..16] == BigEndian(ToUnsigned(r.timestamp), 8)
            && b[16..18] == BigEndian(|r.topic|, 2) && b[18..22] == BigEndian(|r.payload|, 4)
            && b[22..n] == r.topic && b[n..|b|] == r.payload
  {
    hide BigEndian;
  }

  lemma FrameLayout(m: seq<byte>, c: seq<byte>, body: seq<byte>, pad: seq<byte>)
    requires |m| == 3 && |c| == 4
    ensures var f := m + c + body + pad;
            && f[..3] == m && f[3..7] == c
            && forall lo, hi :: 0 <= lo <= hi <= |body| ==> f[7 + lo..7 + hi] == body[lo..hi]
  {
    var f := m + c + body + pad;
    assert forall i :: 0 <= i < |body| ==> f[7 + i] == body[i];
  }

  lemma Radices()
    ensures Radix(2) == 0x1_0000 && Radix(4) == 0x1_0000_0000 && Radix(8) == 0x1_0000_0000_0000_0000
  {
  }

  lemma EncodedLength(r: Record, pad: seq<byte>)
    requires |r.topic| <= MAX_TOPIC
    ensures ClaimedLength(Encode(r) + pad) == HEADER_SIZE + |r.topic| + |r.payload| % 0x1_0000_0000
  {
    var f := Encode(r) + pad;
    assert f[23..25] == BigEndian(|r.topic|, 2) && f[25..29] == BigEndian(|r.payload|, 4) by {
      EncodeLayout(r, pad);
    }
    Radices();
    FieldRoundTrip(|r.topic|, 2);
    BigEndianRoundTrip(|r.payload|, 4);
  }

  /** What the header fields of an encoding say, whatever follows it. */
  lemma EncodedFields(r: Record, pad: seq<byte>)
    requires Encodable(r)
    ensures var f := Encode(r) + pad;
            && MagicOk(f)
            && FromBig(f[3..7]) == Checksum(Body(r))
            && FromBig(f[7..15]) == r.id
            && FromBig(f[15..23]) == ToUnsigned(r.timestamp)
            && FromBig(f[23..25]) == |r.topic|
            && FromBig(f[25..29]) == |r.payload|
  {
    Radices();
    EncodeLayout(r, pad);
    FieldRoundTrip(Checksum(Body(r)), 4);
    FieldRoundTrip(r.id, 8);
    FieldRoundTrip(ToUnsigned(r.timestamp), 8);
    FieldRoundTrip(|r.topic|, 2);
    FieldRoundTrip(|r.payload|, 4);
  }

  /** Decoding an encoding, whatever follows it, gives the record back, with the checksum filled in. */
  lemma RoundTrip(r: Record, pad: seq<byte>)
    requires Encodable(r)
    ensures Decode(Encode(r) + pad) == Ok(r.(offset := 0, checksum := Checksum(Body(r))))
  {
    var f := Encode(r) + pad;
    EncodedFields(r, pad);
    assert ClaimedLength(f) == |Encode(r)|;
    assert f[7..|Encode(r)|] == Body(r) && f[29..29 + |r.topic|] == r.topic
      && f[29 + |r.topic|..|Encode(r)|] == r.payload by {
      EncodeLayout(r, pad);
    }
    assert ToSigned(ToUnsigned(r.timestamp)) == r.timestamp;
  }

  /** The fields of a header are written as the encoding writes what they say. */
  lemma FieldsReadBack(d: seq<byte>)
    requires |d| >= HEADER_SIZE
    ensures d[3..7] == BigEndian(FromBig(d[3..7]), 4) && d[7..15] == BigEndian(ClaimedId(d), 8)
    ensures FromBig(d[15..23]) < 0x1_0000_0000_0000_0000
    ensures d[15..23] == BigEndian(ToUnsigned(ToSigned(FromBig(d[15..23]))), 8)
    ensures d[23..25] == BigEndian(FromBig(d[23..25]), 2) && d[25..29] == BigEndian(FromBig(d[25..29]), 4)
    ensures FromBig(d[23..25]) <= MAX_TOPIC && FromBig(d[25..29]) < 0x1_0000_0000
  {
    hide BigEndian, FromBig;
    Radices();
    FromBigRoundTrip(d[3..7]);
    FromBigRoundTrip(d[7..15]);
    FromBigRoundTrip(d[15..23]);
    FromBigRoundTrip(d[23..25]);
    FromBigRoundTrip(d[25..29]);
  }

  /** Five fields and two texts that follow each other. */
  lemma BodyPieces(d: seq<byte>, topicEnd: nat, total: nat)
    requires HEADER_SIZE <= topicEnd <= total <= |d|
    ensures d[7..total] == d[7..15] + d[15..23] + d[23..25] + d[25..29] + d[29..topicEnd] + d[topicEnd..total]
    ensures d[..total] == [d[0], d[1], d[2]] + d[3..7] + d[7..total]
  {
  }

  lemma DecodedIsEncoded(d: seq<byte>, r: Record)
    requires Decode(d) == Ok(r)
    ensures Encodable(r) && r.offset == 0 && r.checksum == Checksum(Body(r)) && Encode(r) <= d
  {
    hide BigEndian, FromBig, Checksum;
    FieldsReadBack(d);
    var total := ClaimedLength(d);
    var topicEnd := HEADER_SIZE + FromBig(d[23..25]);
    assert r.topic == d[29..topicEnd] && r.payload == d[topicEnd..total];
    BodyPieces(d, topicEnd, total);
    assert d[7..total] == Body(r);
    assert d[3..7] == BigEndian(Checksum(Body(r)), 4);
    assert d[..total] == Encode(r);
  }

  /** Bytes decode to a record if and only if they are its encoding, with any bytes behind it. */
  lemma DecodeExactly(d: seq<byte>, r: Record)
    ensures Decode(d) == Ok(r) <==>
      && Encodable(r) && r.offset == 0 && r.checksum == Checksum(Body(r)) && Encode(r) <= d
  {
    hide *;
    if Decode(d) == Ok(r) {
      DecodedIsEncoded(d, r);
    } else if Encodable(r) && Encode(r) <= d {
      RoundTrip(r, d[|Encode(r)|..]);
      assert Encode(r) + d[|Encode(r)|..] == d;
    }
  }

  /** A payload of 4 GiB or more is written in full under a wrapped length, and never comes back whole. */
  lemma RoundTripExactly(r: Record)
    requires |r.topic| <= MAX_TOPIC
    ensures (Decode(Encode(r)).Ok? && Decode(Encode(r)).value.payload == r.payload) <==> |r.payload| < 0x1_0000_0000
  {
    assert Encode(r) + [] == Encode(r);
    if Encodable(r) {
      RoundTrip(r, []);
    } else {
      EncodedLength(r, []);
    }
  }

  /** A proper prefix of an encoding is reported as truncated, never as corrupt or as a record. */
  lemma PrefixIsTruncated(r: Record, k: nat)
    requires Encodable(r) && k < |Encode(r)|
    ensures Decode(Encode(r)[..k]) == Err(TruncatedData)
  {
    hide FromBig, BigEndian, Checksum, Body;
    var f, p := Encode(r), Encode(r)[..k];
    assert f + [] == f;
    EncodedFields(r, []);
    if k >= HEADER_SIZE {
      assert p[23..25] == f[23..25] && p[25..29] == f[25..29];
    }
  }

  /** `f` and `g` have one length and agree outside `[lo, hi)`. */
  ghost predicate AgreeOutside(f: seq<byte>, g: seq<byte>, lo: nat, hi: nat) {
    |f| == |g| && forall i :: 0 <= i < |f| && !(lo <= i < hi) ==> f[i] == g[i]
  }

  /** Damage that spares the length fields leaves the claimed length right, so only the seal decides. */
  lemma LengthsKept(r: Record, g: seq<byte>)
    requires Encodable(r) && |g| == |Encode(r)| && g[23..29] == Encode(r)[23..29]
    ensures ClaimedLength(g) == |g|
    ensures !MagicOk(g) || FromBig(g[3..7]) != Checksum(g[7..]) ==> Decode(g) == Err(CorruptRecord)
  {
    var f := Encode(r);
    assert f + [] == f;
    EncodedFields(r, []);
    assert g[23..25] == g[23..29][..2] == f[23..25];
    assert g[25..29] == g[23..29][2..] == f[25..29];
    assert g[7..|g|] == g[7..];
  }

  lemma SamePieces(f: seq<byte>, g: seq<byte>, i: nat, j: nat)
    requires i <= j <= |f| == |g|
    ensures f[..i] == g[..i] && f[i..j] == g[i..j] && f[j..] == g[j..] ==> f == g
  {
    assert f == f[..i] + f[i..j] + f[j..] && g == g[..i] + g[i..j] + g[j..];
  }

  /** Any damage to the magic, the version and the checksum field is detected, all seven bytes at once included. */
  lemma SealDamageDetected(r: Record, g: seq<byte>)
    requires Encodable(r) && AgreeOutside(Encode(r), g, 0, 7) && g != Encode(r)
    ensures Decode(g) == Err(CorruptRecord)
  {
    var f := Encode(r);
    LengthsKept(r, g);
    assert g[7..] == f[7..] == Body(r);
    FromBigRoundTrip(g[3..7]);
    SamePieces(f, g, 3, 7);
    assert f[..3] == [MAGIC_1, MAGIC_2, WIRE_VERSION];
    assert MagicOk(g) ==> g[..3] == [MAGIC_1, MAGIC_2, WIRE_VERSION];
    assert f[3..7] == BigEndian(Checksum(Body(r)), 4);
  }

  /**
   * Any damage confined to four consecutive bytes of the identifier, the timestamp, the topic and the payload is
   * detected; damage to a single byte of them is the case of one changed byte.
   */
  lemma BodyDamageDetected(r: Record, g: seq<byte>, at: nat)
    requires Encodable(r) && 7 <= at && (at + 4 <= 23 || 29 <= at)
    requires AgreeOutside(Encode(r), g, at, at + 4) && g != Encode(r)
    ensures Decode(g) == Err(CorruptRecord)
  {
    var f := Encode(r);
    LengthsKept(r, g);
    assert FromBig(g[3..7]) == Checksum(f[7..]) by {
      assert f + [] == f;
      EncodedFields(r, []);
      assert g[3..7] == f[3..7];
    }
    BodiesDiffer(f, g, at);
  }

  lemma ThreeParts(s: seq<byte>, lo: nat, at: nat, end: nat)
    requires lo <= at <= end <= |s|
    ensures s[lo..] == s[lo..at] + s[at..end] + s[end..]
  {
  }

  lemma BodiesDiffer(f: seq<byte>, g: seq<byte>, at: nat)
    requires 7 <= at && |f| >= 7 && AgreeOutside(f, g, at, at + 4) && g != f
    ensures Checksum(g[7..]) != Checksum(f[7..])
  {
    var i :| 0 <= i < |f| && f[i] != g[i];
    var end := if at + 4 <= |f| then at + 4 else |f|;
    ThreeParts(f, 7, at, end);
    ThreeParts(g, 7, at, end);
    assert g[7..at] == f[7..at] && g[end..] == f[end..];
    assert f[at..end][i - at] != g[at..end][i - at];
    ChecksumDetectsBurst(f[7..at], f[at..end], g[at..end], f[end..]);
  }

  /** Raising one byte of a length field makes the frame claim more bytes than it has. */
  lemma RaisedLengthDetected(r: Record, g: seq<byte>, at: nat)
    requires Encodable(r) && 23 <= at < 29
    requires AgreeOutside(Encode(r), g, at, at + 1) && g[at] > Encode(r)[at]
    ensures Decode(g) == Err(TruncatedData)
  {
    var f := Encode(r);
    assert f + [] == f;
    EncodedFields(r, []);
    assert MagicOk(g);
    if at < 25 {
      assert g[25..29] == f[25..29];
      FromBigRaised(f[23..25], g[23..25], at - 23);
    } else {
      assert g[23..25] == f[23..25];
      FromBigRaised(f[25..29], g[25..29], at - 25);
    }
  }

  lemma {:induction false} FromBigRaised(s: seq<byte>, t: seq<byte>, at: nat)
    requires at < |s| == |t| && t[at] > s[at] && AgreeOutside(s, t, at, at + 1)
    ensures FromBig(t) > FromBig(s)
  {
    var n := |s| - 1;
    if at == n {
      assert s[..n] == t[..n];
    } else {
      FromBigRaised(s[..n], t[..n], at);
    }
  }
}
