/** The laws of the pprof codec over all profiles and all byte buffers. */
module PprofLaws {
  import opened Bytes
  import opened Wire
  import opened Pprof
  import opened PprofMerge
  import PprofRoundTrip

  // ---------------------------------------------------------------- round trip

  /** Encoding and decoding gives the profile back, and the cursor ends on the last byte. */
  lemma {:induction false} RoundTrip(p: Profile)
    requires WellFormed(p) && SafeNumbers(p) && |Encode(p)| < MAX_SAFE
    ensures Decode(Encode(p)) == Ok(p, |Encode(p)|)
  {
    var fs := ProfileFields(p);
    FieldsConsistent(p);
    forall f | f in fs
      ensures Inverts(ReadProfileField, EncodeProfileField, f)
    {
      PprofRoundTrip.ConcatMember(EncodeProfileField, fs, f);
      forall t: seq<byte> { PprofRoundTrip.ProfileFieldInverts(f, t); }
    }
    FieldsInvert(ReadProfileField, EncodeProfileField, fs, []);
    assert Encode(p) + [] == Encode(p);
    ProfileOfFields(p);
  }

  // ---------------------------------------------------------------- what decoding returns

  lemma {:induction false} LocationOfConsistent(fs: seq<LocationField>)
    ensures ConsistentLocation(LocationOf(fs))
    decreases |fs|
  {
    if fs != [] {
      LocationOfConsistent(fs[..|fs| - 1]);
      var x, f := LocationOf(fs[..|fs| - 1]), fs[|fs| - 1];
      if f.LocationLine? {
        assert FunctionIds(x.lines + [f.line]) == FunctionIds(x.lines) + [f.line.functionId];
      }
    }
  }

  lemma ProfileFieldConsistent(s: seq<byte>)
    requires ReadProfileField(s).Ok?
    ensures var f := ReadProfileField(s).value; f.LocationEntry? ==> ConsistentLocation(f.location)
  {
    var Ok(tag, k) := ReadVarint(s);
    var nested := Nested(ReadLocationField, Rest(s, k));
    if nested.Ok? {
      LocationOfConsistent(nested.value);
    }
  }

  lemma {:induction false} ReadConsistent(s: seq<byte>, len: int)
    requires Fields(ReadProfileField, s, len).Ok?
    ensures Consistent(Fields(ReadProfileField, s, len).value)
    decreases if len < 0 then 0 else len
  {
    hide ReadProfileField, ConsistentLocation;
    if len > 0 {
      var Ok(f, k) := ReadProfileField(s);
      ProfileFieldConsistent(s);
      ReadConsistent(Rest(s, k), len - k);
    }
  }

  /** Whatever the bytes, a profile that comes out is well-formed. */
  lemma {:induction false} DecodedWellFormed(raw: seq<byte>)
    requires Decode(raw).Ok?
    ensures WellFormed(Decode(raw).value)
  {
    ReadConsistent(raw, |raw|);
    ProfileOfWellFormed(Fields(ReadProfileField, raw, |raw|).value);
  }

  /** The round trip holds exactly for the well-formed profiles. */
  lemma {:induction false} RoundTripExactly(p: Profile)
    requires SafeNumbers(p) && |Encode(p)| < MAX_SAFE
    ensures Decode(Encode(p)) == Ok(p, |Encode(p)|) <==> WellFormed(p)
  {
    if WellFormed(p) {
      RoundTrip(p);
    } else if Decode(Encode(p)) == Ok(p, |Encode(p)|) {
      DecodedWellFormed(Encode(p));
    }
  }

  /** A location that names a function none of its lines is in: the name is lost, because only lines
      are written. */
  lemma {:induction false} UnlistedFunctionIsLost()
    ensures var p, q := EMPTY.(locations := [(1, Location(1, [], [7]))]), EMPTY.(locations := [(1, Location(1, [], []))]);
            Decode(Encode(p)) == Ok(q, |Encode(p)|) && p != q
  {
    hide Decode, Encode, WellFormed, SafeNumbers;
    var p, q := EMPTY.(locations := [(1, Location(1, [], [7]))]), EMPTY.(locations := [(1, Location(1, [], []))]);
    SameLocationBytes();
    RoundTrip(q);
  }

  lemma SameLocationBytes()
    ensures var p, q := EMPTY.(locations := [(1, Location(1, [], [7]))]), EMPTY.(locations := [(1, Location(1, [], []))]);
            Encode(p) == Encode(q) && |Encode(q)| < MAX_SAFE && WellFormed(q) && SafeNumbers(q)
  {
  }

  /** Re-encoding a decoded buffer loses nothing the decoder can see. */
  lemma {:induction false} DecodeEncodeDecode(raw: seq<byte>, p: Profile, n: nat)
    requires Decode(raw) == Ok(p, n) && SafeNumbers(p) && |Encode(p)| < MAX_SAFE
    ensures Decode(Encode(p)) == Ok(p, |Encode(p)|)
  {
    DecodedWellFormed(raw);
    RoundTrip(p);
  }

  // ---------------------------------------------------------------- locality

  lemma ScalarBodyLocal(known: set<nat>, field: nat, wire: nat, s: seq<byte>, u: seq<byte>)
    requires ScalarBody(known, field, wire, s).Ok?
    ensures ScalarBody(known, field, wire, s + u) == ScalarBody(known, field, wire, s)
  {
    if field in known && wire == WIRE_VARINT {
      VarintLocalAt(s, s + u, 0);
    } else {
      SkipLocal(s, s + u, wire);
    }
  }

  lemma ScalarReadersLocal()
    ensures Local(ReadLabelField) && Local(ReadPairField) && Local(ReadFunctionField)
  {
    forall field, wire, s, u
      ensures BodyIgnores(LabelBody, field, wire, s, u)
      ensures BodyIgnores(PairBody, field, wire, s, u)
      ensures BodyIgnores(FunctionBody, field, wire, s, u)
    {
      if LabelBody(field, wire, s).Ok? { ScalarBodyLocal({1, 2, 3}, field, wire, s, u); }
      if PairBody(field, wire, s).Ok? { ScalarBodyLocal({1, 2}, field, wire, s, u); }
      if FunctionBody(field, wire, s).Ok? { ScalarBodyLocal({1, 2, 4}, field, wire, s, u); }
    }
    TaggedLocal(LabelBody, ReadLabelField);
    TaggedLocal(PairBody, ReadPairField);
    TaggedLocal(FunctionBody, ReadFunctionField);
  }

  lemma SampleBodyLocal(field: nat, wire: nat, s: seq<byte>, u: seq<byte>)
    requires SampleBody(field, wire, s).Ok?
    ensures SampleBody(field, wire, s + u) == SampleBody(field, wire, s)
  {
    VarintLocal();
    ScalarReadersLocal();
    if (field == 1 || field == 2) && Repeatable(wire) {
      if wire == WIRE_VARINT { VarintLocalAt(s, s + u, 0); } else { NestedLocal(ReadVarint, s, s + u); }
    } else if field == 3 && wire == WIRE_LENGTH_DELIMITED {
      NestedLocal(ReadLabelField, s, s + u);
    } else {
      SkipLocal(s, s + u, wire);
    }
  }

  lemma LocationBodyLocal(field: nat, wire: nat, s: seq<byte>, u: seq<byte>)
    requires LocationBody(field, wire, s).Ok?
    ensures LocationBody(field, wire, s + u) == LocationBody(field, wire, s)
  {
    ScalarReadersLocal();
    if field == 1 && wire == WIRE_VARINT {
      VarintLocalAt(s, s + u, 0);
    } else if field == 4 && wire == WIRE_LENGTH_DELIMITED {
      NestedLocal(ReadPairField, s, s + u);
    } else {
      SkipLocal(s, s + u, wire);
    }
  }

  lemma MessageReadersLocal()
    ensures Local(ReadSampleField) && Local(ReadLocationField)
  {
    forall field, wire, s, u
      ensures BodyIgnores(SampleBody, field, wire, s, u)
      ensures BodyIgnores(LocationBody, field, wire, s, u)
    {
      if SampleBody(field, wire, s).Ok? { SampleBodyLocal(field, wire, s, u); }
      if LocationBody(field, wire, s).Ok? { LocationBodyLocal(field, wire, s, u); }
    }
    TaggedLocal(SampleBody, ReadSampleField);
    TaggedLocal(LocationBody, ReadLocationField);
  }

  lemma StringLocal(s: seq<byte>, u: seq<byte>)
    requires ReadString(s).Ok?
    ensures ReadString(s + u) == ReadString(s)
  {
    VarintLocalAt(s, s + u, 0);
    var Ok(len, k) := ReadVarint(s);
    assert Rest(s + u, k) == Rest(s, k) + u;
    assert Rest(s + u, k)[..len] == Rest(s, k)[..len];
  }

  lemma ProfileBodyLocal(field: nat, wire: nat, s: seq<byte>, u: seq<byte>)
    requires ProfileBody(field, wire, s).Ok?
    ensures ProfileBody(field, wire, s + u) == ProfileBody(field, wire, s)
  {
    ScalarReadersLocal();
    MessageReadersLocal();
    if wire != WIRE_LENGTH_DELIMITED || field !in {1, 2, 4, 5, 6} {
      SkipLocal(s, s + u, wire);
    } else if field == 1 {
      NestedLocal(ReadPairField, s, s + u);
    } else if field == 2 {
      NestedLocal(ReadSampleField, s, s + u);
    } else if field == 4 {
      NestedLocal(ReadLocationField, s, s + u);
    } else if field == 5 {
      NestedLocal(ReadFunctionField, s, s + u);
    } else {
      StringLocal(s, u);
    }
  }

  /** A top-level field that decodes does so the same way whatever follows the buffer. */
  lemma ProfileReaderLocal()
    ensures Local(ReadProfileField)
  {
    forall field, wire, s, u
      ensures BodyIgnores(ProfileBody, field, wire, s, u)
    {
      if ProfileBody(field, wire, s).Ok? { ProfileBodyLocal(field, wire, s, u); }
    }
    TaggedLocal(ProfileBody, ReadProfileField);
  }

  // ---------------------------------------------------------------- homomorphism

  /** What the caller of `decodePprof` sees: the profile or the error, not the cursor. */
  function Outcome(r: Read<Profile>): Read<Profile> {
    if r.Ok? then Ok(r.value, 0) else r
  }

  function Merged(p: Profile, r: Read<Profile>): Read<Profile> {
    match r
    case Ok(q, _) => Ok(Merge(p, q), 0)
    case Err(e) => Err(e)
  }

  ghost predicate ConsistentReads(read: seq<byte> -> Read<ProfileField>)
    requires Progress(read)
  {
    forall s, len :: Fields(read, s, len).Ok? ==> Consistent(Fields(read, s, len).value)
  }

  lemma HomomorphismOf(read: seq<byte> -> Read<ProfileField>, a: seq<byte>, b: seq<byte>, p: Profile)
    requires Progress(read) && Local(read) && ConsistentReads(read)
    requires Built(Fields(read, a, |a|)) == Ok(p, |a|)
    ensures Outcome(Built(Fields(read, a + b, |a + b|))) == Merged(p, Built(Fields(read, b, |b|)))
  {
    var fs := Fields(read, a, |a|).value;
    var tail := Fields(read, b, |b|);
    FieldsAppend(read, a, b, fs);
    if tail.Ok? {
      ProfileOfAppend(fs, tail.value);
    }
  }

  lemma ProfileReaderConsistent()
    ensures ConsistentReads(ReadProfileField)
  {
    forall s, len | Fields(ReadProfileField, s, len).Ok?
      ensures Consistent(Fields(ReadProfileField, s, len).value)
    {
      ReadConsistent(s, len);
    }
  }

  /** If decoding `a` stops on its last byte, decoding `a + b` merges the two results,
      and fails exactly as decoding `b` fails. */
  lemma {:induction false} Homomorphism(a: seq<byte>, b: seq<byte>, p: Profile)
    requires Decode(a) == Ok(p, |a|)
    ensures Outcome(Decode(a + b)) == Merged(p, Decode(b))
  {
    ProfileReaderLocal();
    ProfileReaderConsistent();
    HomomorphismOf(ReadProfileField, a, b, p);
  }

  /** A buffer of continuation bytes is no varint. */
  lemma {:induction false} UnterminatedAt(n: nat, i: nat)
    requires i <= 9
    ensures ReadVarintAt(seq(n, _ => 128 as byte), i).Err?
    decreases n
  {
    var s := seq(n, _ => 128 as byte);
    if n > 0 && i < 9 {
      UnterminatedAt(n - 1, i + 1);
      assert s[1..] == seq(n - 1, _ => 128 as byte);
    }
  }

  lemma UnterminatedDecode(n: nat, p: Profile)
    requires n > 0
    ensures Merged(p, Decode(seq(n, _ => 128 as byte))).Err?
  {
    UnterminatedAt(n, 0);
  }

  lemma DecodeStopsAtEnd(a: seq<byte>)
    ensures Decode(a).Ok? ==> Decode(a).size >= |a|
  {
  }

  /** A decoding that overshot its buffer swallows that many more bytes unread. */
  lemma Swallowed(a: seq<byte>, p: Profile, n: nat, b: seq<byte>)
    requires Decode(a) == Ok(p, n) && |a| + |b| == n
    ensures Outcome(Decode(a + b)) == Ok(p, 0)
  {
    hide Local, ReadProfileField;
    ProfileReaderLocal();
    FieldsSwallow(ReadProfileField, a, |a|, a + b, Fields(ReadProfileField, a, |a|).value, n);
  }

  /** Among the buffers that decode, the homomorphism holds exactly for those
      whose decoding stops on the last byte. */
  lemma {:induction false} HomomorphismExactly(a: seq<byte>, p: Profile, n: nat)
    requires Decode(a) == Ok(p, n)
    ensures (forall b: seq<byte> :: Outcome(Decode(a + b)) == Merged(p, Decode(b))) <==> n == |a|
  {
    hide Decode, Merge, Merged, Outcome;
    if n == |a| {
      forall b: seq<byte> { Homomorphism(a, b, p); }
    } else {
      DecodeStopsAtEnd(a);
      var b := seq(n - |a|, _ => 128 as byte);
      Swallowed(a, p, n, b);
      UnterminatedDecode(n - |a|, p);
      assert Outcome(Decode(a + b)) != Merged(p, Decode(b));
    }
  }

  /** Such a buffer: the tag of an eight-byte field with nothing behind it decodes, to nine bytes, and
      swallows the next eight, which alone do not decode. */
  lemma {:induction false} CutFieldSwallows()
    ensures Decode([25]) == Ok(EMPTY, 9)
    ensures var b := seq(8, _ => 128 as byte);
            Outcome(Decode([25] + b)) == Ok(EMPTY, 0) && Decode(b).Err?
  {
    assert ReadVarint([25]) == Ok(25, 1) && FieldNum(25) == 3 && WireType(25) == WIRE_FIXED64;
    assert ReadProfileField([25]) == Ok(OtherEntry, 9);
    assert [OtherEntry] + [] == [OtherEntry];
    assert Fields(ReadProfileField, [25], 1) == Ok([OtherEntry], 9);
    assert ProfileOf([OtherEntry][..0]) == EMPTY;
    Swallowed([25], EMPTY, 9, seq(8, _ => 128 as byte));
    UnterminatedDecode(8, EMPTY);
  }

  /** The bytes after a tag that `skipField` steps over. */
  ghost predicate SkipPayload(wire: nat, payload: seq<byte>) {
    SkipField(payload, wire) == Ok((), |payload|)
  }

  /** What the wire format says these bytes are, for each wire type. */
  lemma {:induction false} SkipPayloads(payload: seq<byte>, v: nat, bytes: seq<byte>)
    requires v < MAX_SAFE && |bytes| < MAX_SAFE
    ensures SkipPayload(WIRE_VARINT, Varint(v))
    ensures SkipPayload(WIRE_FIXED64, payload) <==> |payload| == 8
    ensures SkipPayload(WIRE_LENGTH_DELIMITED, Varint(|bytes|) + bytes)
    ensures SkipPayload(WIRE_FIXED32, payload) <==> |payload| == 4
    ensures forall wire :: wire !in {0, 1, 2, 5} ==> !SkipPayload(wire, payload)
  {
    VarintInverts(v, []);
    assert Varint(v) + [] == Varint(v);
    VarintInverts(|bytes|, bytes);
  }

  predicate KnownField(field: nat, wire: nat) {
    field in {1, 2, 4, 5, 6} && wire == WIRE_LENGTH_DELIMITED
  }

  lemma UnknownFieldReads(field: nat, wire: nat, payload: seq<byte>)
    requires field < 0x2000_0000 && wire < 8 && !KnownField(field, wire) && SkipPayload(wire, payload)
    ensures Decode(Tag(field, wire) + payload) == Ok(EMPTY, |Tag(field, wire) + payload|)
  {
    var u := Tag(field, wire) + payload;
    assert ReadProfileField(u) == Ok(OtherEntry, |u|) by {
      TaggedInverts(ProfileBody, field, wire, payload);
    }
    OneField(ReadProfileField, u, OtherEntry);
    assert [OtherEntry][..0] == [];
    assert ProfileOf([OtherEntry]) == ProfileOf([]);
  }

  lemma OvershootingField(u: seq<byte>, n: nat)
    requires ReadProfileField(u) == Ok(OtherEntry, n) && |u| <= n && u != []
    ensures Decode(u) == Ok(EMPTY, n)
  {
    hide ReadProfileField;
    ProfileReaderLocal();
    FieldsStep(ReadProfileField, u, |u|);
    assert [OtherEntry] + [] == [OtherEntry] && [OtherEntry][..0] == [];
    assert ProfileOf([OtherEntry]) == ProfileOf([]);
  }

  /** A buffer that ends inside its last field: skipping does not look at what is left, so a field the
      decoder does not know decodes, and overshoots. */
  lemma {:induction false} CutField(field: nat, len: nat, left: seq<byte>)
    requires field < 0x2000_0000 && len < MAX_SAFE
    ensures |left| <= 8 ==> Decode(Tag(field, 1) + left) == Ok(EMPTY, |Tag(field, 1)| + 8)
    ensures |left| <= 4 ==> Decode(Tag(field, 5) + left) == Ok(EMPTY, |Tag(field, 5)| + 4)
    ensures |left| <= len && field !in {1, 2, 4, 5, 6} ==>
              Decode(Tag(field, 2) + (Varint(len) + left)) == Ok(EMPTY, |Tag(field, 2)| + |Varint(len)| + len)
  {
    hide Tag, Varint, ReadVarint, Decode;
    VarintInverts(len, left);
    TaggedInverts(ProfileBody, field, 1, left);
    TaggedInverts(ProfileBody, field, 5, left);
    TaggedInverts(ProfileBody, field, 2, Varint(len) + left);
    if |left| <= 8 { OvershootingField(Tag(field, 1) + left, |Tag(field, 1)| + 8); }
    if |left| <= 4 { OvershootingField(Tag(field, 5) + left, |Tag(field, 5)| + 4); }
    if |left| <= len && field !in {1, 2, 4, 5, 6} {
      OvershootingField(Tag(field, 2) + (Varint(len) + left), |Tag(field, 2)| + |Varint(len)| + len);
    }
  }

  /** A string does look at what is left, and throws; and four wire types always throw. */
  lemma {:induction false} RefusedField(field: nat, wire: nat, len: nat, left: seq<byte>)
    requires field < 0x2000_0000 && len < MAX_SAFE
    ensures |left| < len ==> Decode(Tag(6, 2) + (Varint(len) + left)) == Err(BytesOutOfRange)
    ensures wire in {3, 4, 6, 7} ==> Decode(Tag(field, wire) + left) == Err(UnsupportedWire(wire))
  {
    hide Tag, Varint, ReadVarint, Decode;
    VarintInverts(len, left);
    TaggedInverts(ProfileBody, 6, 2, Varint(len) + left);
    if |left| < len { FailingField(Tag(6, 2) + (Varint(len) + left), BytesOutOfRange); }
    if wire in {3, 4, 6, 7} {
      TaggedInverts(ProfileBody, field, wire, left);
      FailingField(Tag(field, wire) + left, UnsupportedWire(wire));
    }
  }

  lemma FailingField(u: seq<byte>, e: Error)
    requires ReadProfileField(u) == Err(e) && u != []
    ensures Decode(u) == Err(e)
  {
  }

  /** A field the decoder does not know, put between two top-level fields, changes nothing. */
  lemma {:induction false} UnknownFieldIgnored(a: seq<byte>, p: Profile, field: nat, wire: nat, payload: seq<byte>,
                                               b: seq<byte>)
    requires Decode(a) == Ok(p, |a|)
    requires field < 0x2000_0000 && wire < 8 && !KnownField(field, wire) && SkipPayload(wire, payload)
    ensures Outcome(Decode(a + (Tag(field, wire) + payload) + b)) == Outcome(Decode(a + b))
  {
    var u := Tag(field, wire) + payload;
    UnknownFieldReads(field, wire, payload);
    Homomorphism(u, b, EMPTY);
    Homomorphism(a, u + b, p);
    Homomorphism(a, b, p);
    assert a + u + b == a + (u + b);
    if Decode(b).Ok? {
      DecodedWellFormed(b);
      MergeEmpty(Decode(b).value);
    }
  }

  // ---------------------------------------------------------------- repeated fields

  function Repeated(field: nat, v: nat): seq<byte> { Tag(field, WIRE_VARINT) + Varint(v) }

  function UnpackedIds(vs: seq<nat>): seq<byte> {
    if vs == [] then [] else UnpackedIds(vs[..|vs| - 1]) + Repeated(1, vs[|vs| - 1])
  }

  function UnpackedValues(vs: seq<nat>): seq<byte> {
    if vs == [] then [] else UnpackedValues(vs[..|vs| - 1]) + Repeated(2, vs[|vs| - 1])
  }

  lemma RepeatedReads(field: nat, v: nat)
    requires (field == 1 || field == 2) && Safe(v)
    ensures ReadSampleField(Repeated(field, v))
         == Ok(if field == 1 then LocationIds([v]) else Values([v]), |Repeated(field, v)|)
  {
    hide Varint, Tag;
    TaggedInverts(SampleBody, field, WIRE_VARINT, Varint(v));
    VarintInverts(v, []);
    assert Varint(v) + [] == Varint(v);
  }

  /** The bytes of a sample message decode, to the last one, to `x`. */
  ghost predicate DecodesTo(bs: seq<byte>, fs: seq<SampleField>, x: Sample) {
    Fields(ReadSampleField, bs, |bs|) == Ok(fs, |bs|) && SampleOf(fs) == x
  }

  /** One more unpacked value adds it at the end of its list. */
  lemma AppendRepeated(a: seq<byte>, fs: seq<SampleField>, x: Sample, field: nat, v: nat)
    requires (field == 1 || field == 2) && Safe(v) && DecodesTo(a, fs, x)
    ensures var f := if field == 1 then LocationIds([v]) else Values([v]);
            DecodesTo(a + Repeated(field, v), fs + [f], AddToSample(x, f))
  {
    hide Local, Repeated, ReadSampleField, Progress;
    MessageReadersLocal();
    RepeatedReads(field, v);
    SampleProgress();
    var f := if field == 1 then LocationIds([v]) else Values([v]);
    OneField(ReadSampleField, Repeated(field, v), f);
    FieldsAppend(ReadSampleField, a, Repeated(field, v), fs);
    assert (fs + [f])[..|fs|] == fs;
  }

  lemma SampleProgress()
    ensures Progress(ReadSampleField)
  {
  }

  lemma DecodesNothing()
    ensures DecodesTo([], [], Sample([], [], []))
  {
  }

  lemma {:induction false} UnpackedIdsDecode(ids: seq<nat>) returns (fs: seq<SampleField>)
    requires forall v :: v in ids ==> Safe(v)
    ensures DecodesTo(UnpackedIds(ids), fs, Sample(ids, [], []))
    decreases |ids|
  {
    hide DecodesTo, Repeated;
    if ids == [] {
      fs := [];
      DecodesNothing();
    } else {
      var front, last := ids[..|ids| - 1], ids[|ids| - 1];
      var gs := UnpackedIdsDecode(front);
      AppendRepeated(UnpackedIds(front), gs, Sample(front, [], []), 1, last);
      fs := gs + [LocationIds([last])];
      assert front + [last] == ids;
    }
  }

  /** Location ids and values written one by one decode to the same sample as when packed. */
  lemma {:induction false} UnpackedIsPacked(ids: seq<nat>, vs: seq<nat>) returns (fs: seq<SampleField>)
    requires (forall v :: v in ids ==> Safe(v)) && (forall v :: v in vs ==> Safe(v))
    ensures DecodesTo(UnpackedIds(ids) + UnpackedValues(vs), fs, Sample(ids, vs, []))
    decreases |vs|
  {
    hide DecodesTo, Repeated, UnpackedIds;
    if vs == [] {
      fs := UnpackedIdsDecode(ids);
      assert UnpackedIds(ids) + UnpackedValues(vs) == UnpackedIds(ids);
    } else {
      var front, last := vs[..|vs| - 1], vs[|vs| - 1];
      var gs := UnpackedIsPacked(ids, front);
      AppendRepeated(UnpackedIds(ids) + UnpackedValues(front), gs, Sample(ids, front, []), 2, last);
      fs := gs + [Values([last])];
      assert front + [last] == vs;
      assert UnpackedIds(ids) + UnpackedValues(front) + Repeated(2, last) == UnpackedIds(ids) + UnpackedValues(vs);
    }
  }

  lemma {:induction false} PackedDecodes(ids: seq<nat>, vs: seq<nat>)
    requires SafeSample(Sample(ids, vs, [])) && |EncodeSample(Sample(ids, vs, []))| < MAX_SAFE
    ensures DecodesTo(EncodeSample(Sample(ids, vs, [])), SampleFields(Sample(ids, vs, [])), Sample(ids, vs, []))
  {
    hide ReadSampleField, EncodeSampleField, SampleFields;
    var x := Sample(ids, vs, []);
    var fs := SampleFields(x);
    PprofRoundTrip.SampleFieldsInvert(x);
    SampleProgress();
    FieldsInvert(ReadSampleField, EncodeSampleField, fs, []);
    assert EncodeSample(x) + [] == EncodeSample(x);
    PprofRoundTrip.SampleOfFields(x);
  }

  ghost predicate Mentions(fs: seq<ScalarField>, num: nat) {
    exists i :: 0 <= i < |fs| && fs[i].Scalar? && fs[i].num == num
  }

  /** A later occurrence of a scalar field overrides all earlier ones. */
  lemma {:induction false} LastOneWins(fs: seq<ScalarField>, gs: seq<ScalarField>, num: nat)
    ensures LastValue(fs + gs, num) == if Mentions(gs, num) then LastValue(gs, num) else LastValue(fs, num)
    decreases |gs|
  {
    if gs == [] {
      assert fs + gs == fs;
    } else {
      var front, g := gs[..|gs| - 1], gs[|gs| - 1];
      LastOneWins(fs, front, num);
      assert (fs + gs)[..|fs + gs| - 1] == fs + front;
      assert Mentions(gs, num) <==> Mentions(front, num) || (g.Scalar? && g.num == num) by {
        assert gs == front + [g];
        if Mentions(front, num) {
          var i :| 0 <= i < |front| && front[i].Scalar? && front[i].num == num;
          assert gs[i] == front[i];
        }
        if g.Scalar? && g.num == num { assert gs[|front|] == g; }
      }
    }
  }
}
