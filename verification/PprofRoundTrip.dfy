/** Encoding a profile and decoding the bytes gives the profile back. */
module PprofRoundTrip {
  import opened Bytes
  import opened Wire
  import opened Pprof

  // ---------------------------------------------------------------- one field at a time

  lemma ScalarInverts(f: ScalarField, known: set<nat>, t: seq<byte>)
    requires f.Scalar? && f.num in known && Safe(f.value)
    ensures ScalarBody(known, f.num, WIRE_VARINT, Varint(f.value) + t) == Ok(f, |Varint(f.value)|)
  {
    VarintInverts(f.value, t);
  }

  lemma TaggedScalarInverts(body: (nat, nat, seq<byte>) -> Read<ScalarField>, f: ScalarField, t: seq<byte>)
    requires f.Scalar? && f.num < 8
    requires body(f.num, WIRE_VARINT, Varint(f.value) + t) == Ok(f, |Varint(f.value)|)
    ensures Tagged(body, EncodeScalar(f) + t) == Ok(f, |EncodeScalar(f)|)
  {
    var tag, v := Tag(f.num, WIRE_VARINT), Varint(f.value);
    assert (tag + v) + t == tag + (v + t);
    TaggedInverts(body, f.num, WIRE_VARINT, v + t);
  }

  ghost predicate SafeScalars(fs: seq<ScalarField>, known: set<nat>) {
    forall f :: f in fs ==> f.Scalar? && f.num in known && f.num < 8 && Safe(f.value)
  }

  lemma ScalarsInvert(fs: seq<ScalarField>)
    ensures SafeScalars(fs, {1, 2, 3}) ==> forall f :: f in fs ==> Inverts(ReadLabelField, EncodeScalar, f)
    ensures SafeScalars(fs, {1, 2}) ==> forall f :: f in fs ==> Inverts(ReadPairField, EncodeScalar, f)
    ensures SafeScalars(fs, {1, 2, 4}) ==> forall f :: f in fs ==> Inverts(ReadFunctionField, EncodeScalar, f)
  {
    forall f, t: seq<byte> | f in fs && SafeScalars(fs, {1, 2, 3})
      ensures ReadLabelField(EncodeScalar(f) + t) == Ok(f, |EncodeScalar(f)|)
    {
      ScalarInverts(f, {1, 2, 3}, t);
      TaggedScalarInverts(LabelBody, f, t);
    }
    forall f, t: seq<byte> | f in fs && SafeScalars(fs, {1, 2})
      ensures ReadPairField(EncodeScalar(f) + t) == Ok(f, |EncodeScalar(f)|)
    {
      ScalarInverts(f, {1, 2}, t);
      TaggedScalarInverts(PairBody, f, t);
    }
    forall f, t: seq<byte> | f in fs && SafeScalars(fs, {1, 2, 4})
      ensures ReadFunctionField(EncodeScalar(f) + t) == Ok(f, |EncodeScalar(f)|)
    {
      ScalarInverts(f, {1, 2, 4}, t);
      TaggedScalarInverts(FunctionBody, f, t);
    }
  }

  lemma {:induction false} ConcatMember<F>(enc: F -> seq<byte>, fs: seq<F>, f: F)
    requires f in fs
    ensures |enc(f)| <= |Concat(enc, fs)|
    decreases |fs|
  {
    if f != fs[0] {
      ConcatMember(enc, fs[1..], f);
    }
  }

  /** A tagged, length-prefixed payload is read as soon as its body is. */
  lemma DelimitedInverts<F>(body: (nat, nat, seq<byte>) -> Read<F>, field: nat, payload: seq<byte>, f: F, t: seq<byte>)
    requires field < 8
    requires body(field, 2, Varint(|payload|) + payload + t) == Ok(f, |Varint(|payload|) + payload|)
    ensures Tagged(body, LengthDelimited(field, payload) + t) == Ok(f, |LengthDelimited(field, payload)|)
  {
    var tag, h := Tag(field, 2), Varint(|payload|);
    assert (tag + h + payload) + t == tag + (h + payload + t);
    TaggedInverts(body, field, 2, h + payload + t);
  }

  /** The payload of a nested message of scalars is read back field by field. */
  lemma ScalarMessageInverts(fs: seq<ScalarField>, t: seq<byte>)
    requires |EncodeScalars(fs)| < MAX_SAFE
    ensures var bs := EncodeScalars(fs);
            var s := Varint(|bs|) + bs + t;
            var n := |Varint(|bs|) + bs|;
            && (SafeScalars(fs, {1, 2, 3}) ==> Nested(ReadLabelField, s) == Ok(fs, n))
            && (SafeScalars(fs, {1, 2}) ==> Nested(ReadPairField, s) == Ok(fs, n))
            && (SafeScalars(fs, {1, 2, 4}) ==> Nested(ReadFunctionField, s) == Ok(fs, n))
  {
    ScalarsInvert(fs);
    if SafeScalars(fs, {1, 2, 3}) { NestedInverts(ReadLabelField, EncodeScalar, fs, t); }
    if SafeScalars(fs, {1, 2}) { NestedInverts(ReadPairField, EncodeScalar, fs, t); }
    if SafeScalars(fs, {1, 2, 4}) { NestedInverts(ReadFunctionField, EncodeScalar, fs, t); }
  }

  lemma LastValues(a: nat, b: nat, n: nat, c: nat)
    requires n > 2
    ensures var fs := NonZero(1, a) + NonZero(2, b);
            LastValue(fs, 1) == a && LastValue(fs, 2) == b
    ensures var fs := NonZero(1, a) + NonZero(2, b) + NonZero(n, c);
            LastValue(fs, 1) == a && LastValue(fs, 2) == b && LastValue(fs, n) == c
  {
    var one, two := NonZero(1, a), NonZero(1, a) + NonZero(2, b);
    assert LastValue(one, 1) == a && LastValue(one, 2) == 0 && LastValue(one, n) == 0;
    assert b != 0 ==> two[..|two| - 1] == one;
    assert b == 0 ==> two == one;
    assert LastValue(two, 1) == a && LastValue(two, 2) == b && LastValue(two, n) == 0;
    var three := two + NonZero(n, c);
    assert c != 0 ==> three[..|three| - 1] == two;
    assert c == 0 ==> three == two;
  }

  lemma LabelInverts(x: Label, t: seq<byte>)
    requires SafeLabel(x) && |EncodeScalars(LabelFields(x))| < MAX_SAFE
    ensures var bs := EncodeScalars(LabelFields(x));
            Nested(ReadLabelField, Varint(|bs|) + bs + t) == Ok(LabelFields(x), |Varint(|bs|) + bs|)
    ensures LabelOf(LabelFields(x)) == x
  {
    hide Nested, Varint, EncodeScalars, LastValue;
    ScalarMessageInverts(LabelFields(x), t);
    LastValues(x.keyIdx, x.strIdx, 3, x.num);
  }

  lemma LineInverts(x: Line, t: seq<byte>)
    requires SafeLine(x) && |EncodeScalars(LineFields(x))| < MAX_SAFE
    ensures var bs := EncodeScalars(LineFields(x));
            Nested(ReadPairField, Varint(|bs|) + bs + t) == Ok(LineFields(x), |Varint(|bs|) + bs|)
    ensures LineOf(LineFields(x)) == x
  {
    hide Nested, Varint, EncodeScalars, LastValue;
    ScalarMessageInverts(LineFields(x), t);
    LastValues(x.functionId, x.line, 3, 0);
  }

  lemma ValueTypeInverts(x: ValueType, t: seq<byte>)
    requires SafeValueType(x) && |EncodeScalars(ValueTypeFields(x))| < MAX_SAFE
    ensures var bs := EncodeScalars(ValueTypeFields(x));
            Nested(ReadPairField, Varint(|bs|) + bs + t) == Ok(ValueTypeFields(x), |Varint(|bs|) + bs|)
    ensures ValueTypeOf(ValueTypeFields(x)) == x
  {
    hide Nested, Varint, EncodeScalars, LastValue;
    ScalarMessageInverts(ValueTypeFields(x), t);
    LastValues(x.typeIdx, x.unitIdx, 3, 0);
  }

  lemma FunctionInverts(x: Function, t: seq<byte>)
    requires SafeFunction(x) && |EncodeScalars(FunctionFields(x))| < MAX_SAFE
    ensures var bs := EncodeScalars(FunctionFields(x));
            Nested(ReadFunctionField, Varint(|bs|) + bs + t) == Ok(FunctionFields(x), |Varint(|bs|) + bs|)
    ensures FunctionOf(FunctionFields(x)) == x
  {
    hide Nested, Varint, EncodeScalars, LastValue;
    ScalarMessageInverts(FunctionFields(x), t);
    LastValues(x.id, x.nameIdx, 4, x.filenameIdx);
  }

  lemma VarintsInvert(vs: seq<nat>, t: seq<byte>)
    requires forall v :: v in vs ==> Safe(v)
    requires |Concat(Varint, vs)| < MAX_SAFE
    ensures var bs := Concat(Varint, vs);
            Progress(ReadVarint) && Nested(ReadVarint, Varint(|bs|) + bs + t) == Ok(vs, |Varint(|bs|) + bs|)
  {
    forall v | v in vs
      ensures Inverts(ReadVarint, Varint, v)
    {
      forall t: seq<byte> { VarintInverts(v, t); }
    }
    NestedInverts(ReadVarint, Varint, vs, t);
  }

  ghost predicate SafeSampleField(f: SampleField) {
    match f
    case LocationIds(ids) => forall v :: v in ids ==> Safe(v)
    case Values(vs) => forall v :: v in vs ==> Safe(v)
    case SampleLabel(l) => SafeLabel(l)
    case OtherSample => false
  }

  lemma {:induction false} SampleFieldInverts(f: SampleField, t: seq<byte>)
    requires SafeSampleField(f) && |EncodeSampleField(f)| < MAX_SAFE
    ensures ReadSampleField(EncodeSampleField(f) + t) == Ok(f, |EncodeSampleField(f)|)
  {
    hide Nested, Varint, ReadVarint, Concat, EncodeScalars, LabelFields, LabelOf, Tagged, Tag;
    match f
    case LocationIds(ids) =>
      VarintsInvert(ids, t);
      DelimitedInverts(SampleBody, 1, Concat(Varint, ids), f, t);
    case Values(vs) =>
      VarintsInvert(vs, t);
      DelimitedInverts(SampleBody, 2, Concat(Varint, vs), f, t);
    case SampleLabel(l) =>
      LabelInverts(l, t);
      DelimitedInverts(SampleBody, 3, EncodeScalars(LabelFields(l)), f, t);
  }

  lemma {:induction false} LocationFieldInverts(f: LocationField, t: seq<byte>)
    requires (f.LocationId? && Safe(f.id)) || (f.LocationLine? && SafeLine(f.line))
    requires |EncodeLocationField(f)| < MAX_SAFE
    ensures ReadLocationField(EncodeLocationField(f) + t) == Ok(f, |EncodeLocationField(f)|)
  {
    hide Nested, Varint, ReadVarint, EncodeScalars, LineFields, LineOf, Tagged, Tag;
    match f
    case LocationId(id) =>
      var tag, v := Tag(1, WIRE_VARINT), Varint(id);
      assert (tag + v) + t == tag + (v + t);
      VarintInverts(id, t);
      TaggedInverts(LocationBody, 1, WIRE_VARINT, v + t);
    case LocationLine(l) =>
      LineInverts(l, t);
      DelimitedInverts(LocationBody, 4, EncodeScalars(LineFields(l)), f, t);
  }

  // ---------------------------------------------------------------- whole messages

  lemma {:induction false} LabelsOf(x: Sample, fs: seq<SampleField>, labels: seq<Label>)
    requires SampleOf(fs) == x
    ensures SampleOf(fs + LabelEntries(labels))
         == x.(labels := x.labels + labels)
    decreases |labels|
  {
    var gs := LabelEntries(labels);
    if labels == [] {
      assert fs + gs == fs;
      assert x.labels + labels == x.labels;
    } else {
      var front := labels[..|labels| - 1];
      LabelsOf(x, fs, front);
      assert (fs + gs)[..|fs + gs| - 1]
          == fs + LabelEntries(front);
      assert x.labels + labels == x.labels + front + [labels[|labels| - 1]];
    }
  }

  lemma SampleOfFields(x: Sample)
    ensures SampleOf(SampleFields(x)) == x
  {
    var a: seq<SampleField> := if x.locationIds == [] then [] else [LocationIds(x.locationIds)];
    var b := a + (if x.values == [] then [] else [Values(x.values)]);
    assert SampleOf([]) == Sample([], [], []);
    assert x.locationIds != [] ==> a[..|a| - 1] == [] && [] + x.locationIds == x.locationIds;
    assert SampleOf(a) == Sample(x.locationIds, [], []);
    assert x.values == [] ==> b == a;
    assert x.values != [] ==> b[..|b| - 1] == a && [] + x.values == x.values;
    assert SampleOf(b) == Sample(x.locationIds, x.values, []);
    LabelsOf(SampleOf(b), b, x.labels);
    assert [] + x.labels == x.labels;
  }

  lemma {:induction false} LinesOf(x: Location, fs: seq<LocationField>, lines: seq<Line>)
    requires LocationOf(fs) == x
    ensures LocationOf(fs + LineEntries(lines))
         == x.(lines := x.lines + lines,
               functionIds := x.functionIds + FunctionIds(lines))
    decreases |lines|
  {
    var gs := LineEntries(lines);
    var ids := FunctionIds(lines);
    if lines == [] {
      assert fs + gs == fs;
      assert x.lines + lines == x.lines;
      assert x.functionIds + ids == x.functionIds;
    } else {
      var front, last := lines[..|lines| - 1], lines[|lines| - 1];
      LinesOf(x, fs, front);
      assert (fs + gs)[..|fs + gs| - 1]
          == fs + LineEntries(front);
      assert x.lines + lines == x.lines + front + [last];
      assert x.functionIds + ids
          == x.functionIds + FunctionIds(front) + [last.functionId];
    }
  }

  lemma LocationOfFields(x: Location)
    requires ConsistentLocation(x)
    ensures LocationOf(LocationFields(x)) == x
  {
    var a: seq<LocationField> := if x.id == 0 then [] else [LocationId(x.id)];
    assert LocationOf([]) == Location(0, [], []);
    assert x.id != 0 ==> a[..|a| - 1] == [];
    assert LocationOf(a) == Location(x.id, [], []);
    LinesOf(LocationOf(a), a, x.lines);
    assert [] + x.lines == x.lines;
    assert [] + FunctionIds(x.lines) == x.functionIds;
  }

  lemma SampleFieldsInvert(x: Sample)
    requires SafeSample(x) && |EncodeSample(x)| < MAX_SAFE
    ensures forall f :: f in SampleFields(x) ==> Inverts(ReadSampleField, EncodeSampleField, f)
  {
    var fs := SampleFields(x);
    forall f | f in fs
      ensures Inverts(ReadSampleField, EncodeSampleField, f)
    {
      ConcatMember(EncodeSampleField, fs, f);
      assert SafeSampleField(f);
      forall t: seq<byte> { SampleFieldInverts(f, t); }
    }
  }

  lemma SampleInverts(x: Sample, t: seq<byte>)
    requires SafeSample(x) && |EncodeSample(x)| < MAX_SAFE
    ensures var bs := EncodeSample(x);
            Nested(ReadSampleField, Varint(|bs|) + bs + t) == Ok(SampleFields(x), |Varint(|bs|) + bs|)
  {
    SampleFieldsInvert(x);
    NestedInverts(ReadSampleField, EncodeSampleField, SampleFields(x), t);
  }

  lemma LocationInverts(x: Location, t: seq<byte>)
    requires SafeLocation(x) && |EncodeLocation(x)| < MAX_SAFE
    ensures var bs := EncodeLocation(x);
            Nested(ReadLocationField, Varint(|bs|) + bs + t) == Ok(LocationFields(x), |Varint(|bs|) + bs|)
  {
    var fs := LocationFields(x);
    forall f | f in fs
      ensures Inverts(ReadLocationField, EncodeLocationField, f)
    {
      ConcatMember(EncodeLocationField, fs, f);
      forall t: seq<byte> { LocationFieldInverts(f, t); }
    }
    NestedInverts(ReadLocationField, EncodeLocationField, fs, t);
  }

  lemma StringInverts(bs: seq<byte>, t: seq<byte>)
    requires |bs| < MAX_SAFE
    ensures ReadString(Varint(|bs|) + bs + t) == Ok(bs, |Varint(|bs|) + bs|)
  {
    var h := Varint(|bs|);
    assert h + bs + t == h + (bs + t);
    VarintInverts(|bs|, bs + t);
    assert Rest(h + (bs + t), |h|) == bs + t;
    assert (bs + t)[..|bs|] == bs;
  }

  lemma SampleTypeEntryInverts(f: ProfileField, t: seq<byte>)
    requires f.SampleTypeEntry? && SafeField(f) && |EncodeProfileField(f)| < MAX_SAFE
    ensures ReadProfileField(EncodeProfileField(f) + t) == Ok(f, |EncodeProfileField(f)|)
  {
    hide Nested, Varint, ReadVarint, EncodeScalars, ValueTypeFields, ValueTypeOf, Tagged, Tag;
    var vt := f.valueType;
    ValueTypeInverts(vt, t);
    DelimitedInverts(ProfileBody, 1, EncodeScalars(ValueTypeFields(vt)), f, t);
  }

  lemma SampleEntryInverts(f: ProfileField, t: seq<byte>)
    requires f.SampleEntry? && SafeField(f) && |EncodeProfileField(f)| < MAX_SAFE
    ensures ReadProfileField(EncodeProfileField(f) + t) == Ok(f, |EncodeProfileField(f)|)
  {
    hide Nested, Varint, ReadVarint, EncodeSample, SampleFields, SampleOf, Tagged, Tag;
    SampleInverts(f.sample, t);
    SampleOfFields(f.sample);
    DelimitedInverts(ProfileBody, 2, EncodeSample(f.sample), f, t);
  }

  lemma LocationEntryInverts(f: ProfileField, t: seq<byte>)
    requires f.LocationEntry? && SafeField(f) && |EncodeProfileField(f)| < MAX_SAFE
    requires ConsistentLocation(f.location)
    ensures ReadProfileField(EncodeProfileField(f) + t) == Ok(f, |EncodeProfileField(f)|)
  {
    hide Nested, Varint, ReadVarint, EncodeLocation, LocationFields, LocationOf, Tagged, Tag;
    LocationInverts(f.location, t);
    LocationOfFields(f.location);
    DelimitedInverts(ProfileBody, 4, EncodeLocation(f.location), f, t);
  }

  lemma FunctionEntryInverts(f: ProfileField, t: seq<byte>)
    requires f.FunctionEntry? && SafeField(f) && |EncodeProfileField(f)| < MAX_SAFE
    ensures ReadProfileField(EncodeProfileField(f) + t) == Ok(f, |EncodeProfileField(f)|)
  {
    hide Nested, Varint, ReadVarint, EncodeScalars, FunctionFields, FunctionOf, Tagged, Tag;
    var g := f.fn;
    FunctionInverts(g, t);
    DelimitedInverts(ProfileBody, 5, EncodeScalars(FunctionFields(g)), f, t);
  }

  lemma StringEntryInverts(f: ProfileField, t: seq<byte>)
    requires f.StringEntry? && SafeField(f) && |EncodeProfileField(f)| < MAX_SAFE
    ensures ReadProfileField(EncodeProfileField(f) + t) == Ok(f, |EncodeProfileField(f)|)
  {
    hide ReadString, Varint, ReadVarint, Tagged, Tag;
    StringInverts(f.bytes, t);
    DelimitedInverts(ProfileBody, 6, f.bytes, f, t);
  }

  /** Every top-level field of an encoded profile is read back, nested messages and all. */
  lemma {:induction false} ProfileFieldInverts(f: ProfileField, t: seq<byte>)
    requires SafeField(f) && |EncodeProfileField(f)| < MAX_SAFE
    requires f.LocationEntry? ==> ConsistentLocation(f.location)
    ensures ReadProfileField(EncodeProfileField(f) + t) == Ok(f, |EncodeProfileField(f)|)
  {
    match f
    case SampleTypeEntry(_) => SampleTypeEntryInverts(f, t);
    case SampleEntry(_) => SampleEntryInverts(f, t);
    case LocationEntry(_) => LocationEntryInverts(f, t);
    case FunctionEntry(_) => FunctionEntryInverts(f, t);
    case StringEntry(_) => StringEntryInverts(f, t);
  }
}
