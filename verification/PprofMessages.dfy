/** The laws of the nested messages, and the bytes the encoder writes, in the numbers of `profile.proto`. */
module PprofMessages {
  import opened Bytes
  import opened Wire
  import opened Pprof
  import opened PprofLaws

  // ---------------------------------------------------------------- unknown fields inside messages

  /** What a decoder sees of a message: the entity or the error, not the cursor. */
  function Seen<F, T>(of: seq<F> -> T, r: Read<seq<F>>): Read<T> {
    match r
    case Ok(fs, _) => Ok(of(fs), 0)
    case Err(e) => Err(e)
  }

  /** `other` leaves no trace, wherever it stands. */
  ghost predicate Traceless<F(!new), T>(of: seq<F> -> T, other: F) {
    forall fs, gs :: of(fs + [other] + gs) == of(fs + gs)
  }

  lemma InsertIgnored<F(!new), T>(read: seq<byte> -> Read<F>, of: seq<F> -> T, other: F,
                            a: seq<byte>, fs: seq<F>, u: seq<byte>, b: seq<byte>)
    requires Progress(read) && Local(read) && Traceless(of, other)
    requires Fields(read, a, |a|) == Ok(fs, |a|) && read(u) == Ok(other, |u|)
    ensures Seen(of, Fields(read, a + u + b, |a + u + b|)) == Seen(of, Fields(read, a + b, |a + b|))
  {
    hide Local, Progress, Fields, Traceless;
    OneField(read, u, other);
    FieldsAppend(read, a, u, fs);
    FieldsAppend(read, a + u, b, fs + [other]);
    FieldsAppend(read, a, b, fs);
    if Fields(read, b, |b|).Ok? { TracelessAt(of, other, fs, Fields(read, b, |b|).value); }
  }

  lemma TracelessAt<F(!new), T>(of: seq<F> -> T, other: F, fs: seq<F>, gs: seq<F>)
    requires Traceless(of, other)
    ensures of(fs + [other] + gs) == of(fs + gs)
  {
  }

  /** The bytes of a field that a message is to step over. */
  ghost predicate Skippable(u: seq<byte>, field: nat, wire: nat, payload: seq<byte>) {
    field < 0x2000_0000 && wire < 8 && SkipPayload(wire, payload) && u == Tag(field, wire) + payload
  }

  lemma {:induction false} OtherScalarIgnored(fs: seq<ScalarField>, gs: seq<ScalarField>, num: nat)
    ensures LastValue(fs + [OtherScalar] + gs, num) == LastValue(fs + gs, num)
    decreases |gs|
  {
    var all, without := fs + [OtherScalar] + gs, fs + gs;
    if gs == [] {
      assert all[..|fs|] == fs && without == fs;
    } else {
      OtherScalarIgnored(fs, gs[..|gs| - 1], num);
      assert all[..|all| - 1] == fs + [OtherScalar] + gs[..|gs| - 1];
      assert without[..|without| - 1] == fs + gs[..|gs| - 1];
    }
  }

  lemma ScalarsTraceless()
    ensures Traceless(LabelOf, OtherScalar) && Traceless(LineOf, OtherScalar)
    ensures Traceless(FunctionOf, OtherScalar) && Traceless(ValueTypeOf, OtherScalar)
  {
    forall fs, gs, num { OtherScalarIgnored(fs, gs, num); }
  }

  /** A label knows varint fields 1, 2 and 3; any other field, wherever it stands, changes nothing. */
  lemma {:induction false} UnknownInLabel(a: seq<byte>, fs: seq<ScalarField>, u: seq<byte>, field: nat, wire: nat,
                                          payload: seq<byte>, b: seq<byte>)
    requires Fields(ReadLabelField, a, |a|) == Ok(fs, |a|)
    requires Skippable(u, field, wire, payload) && (field, wire) !in {(1, 0), (2, 0), (3, 0)}
    ensures Seen(LabelOf, Fields(ReadLabelField, a + u + b, |a + u + b|))
         == Seen(LabelOf, Fields(ReadLabelField, a + b, |a + b|))
  {
    hide Fields, Local, Traceless, Tag;
    TaggedInverts(LabelBody, field, wire, payload);
    ScalarReadersLocal();
    ScalarsTraceless();
    InsertIgnored(ReadLabelField, LabelOf, OtherScalar, a, fs, u, b);
  }

  /** A line and a value type know varint fields 1 and 2. */
  lemma {:induction false} UnknownInLineOrValueType(a: seq<byte>, fs: seq<ScalarField>, u: seq<byte>, field: nat, wire: nat,
                                                    payload: seq<byte>, b: seq<byte>)
    requires Fields(ReadPairField, a, |a|) == Ok(fs, |a|)
    requires Skippable(u, field, wire, payload) && (field, wire) !in {(1, 0), (2, 0)}
    ensures Seen(LineOf, Fields(ReadPairField, a + u + b, |a + u + b|))
         == Seen(LineOf, Fields(ReadPairField, a + b, |a + b|))
    ensures Seen(ValueTypeOf, Fields(ReadPairField, a + u + b, |a + u + b|))
         == Seen(ValueTypeOf, Fields(ReadPairField, a + b, |a + b|))
  {
    hide Fields, Local, Traceless, Tag;
    TaggedInverts(PairBody, field, wire, payload);
    ScalarReadersLocal();
    ScalarsTraceless();
    InsertIgnored(ReadPairField, LineOf, OtherScalar, a, fs, u, b);
    InsertIgnored(ReadPairField, ValueTypeOf, OtherScalar, a, fs, u, b);
  }

  /** A function knows varint fields 1, 2 and 4. */
  lemma {:induction false} UnknownInFunction(a: seq<byte>, fs: seq<ScalarField>, u: seq<byte>, field: nat, wire: nat,
                                             payload: seq<byte>, b: seq<byte>)
    requires Fields(ReadFunctionField, a, |a|) == Ok(fs, |a|)
    requires Skippable(u, field, wire, payload) && (field, wire) !in {(1, 0), (2, 0), (4, 0)}
    ensures Seen(FunctionOf, Fields(ReadFunctionField, a + u + b, |a + u + b|))
         == Seen(FunctionOf, Fields(ReadFunctionField, a + b, |a + b|))
  {
    hide Fields, Local, Traceless, Tag;
    TaggedInverts(FunctionBody, field, wire, payload);
    ScalarReadersLocal();
    ScalarsTraceless();
    InsertIgnored(ReadFunctionField, FunctionOf, OtherScalar, a, fs, u, b);
  }

  /** A sample knows fields 1 and 2, packed or not, and length-delimited field 3. */
  lemma {:induction false} UnknownInSample(a: seq<byte>, fs: seq<SampleField>, u: seq<byte>, field: nat, wire: nat,
                                           payload: seq<byte>, b: seq<byte>)
    requires Fields(ReadSampleField, a, |a|) == Ok(fs, |a|)
    requires Skippable(u, field, wire, payload) && (field, wire) !in {(1, 0), (1, 2), (2, 0), (2, 2), (3, 2)}
    ensures Seen(SampleOf, Fields(ReadSampleField, a + u + b, |a + u + b|))
         == Seen(SampleOf, Fields(ReadSampleField, a + b, |a + b|))
  {
    hide Fields, Local, Traceless, Tag, SampleOf;
    TaggedInverts(SampleBody, field, wire, payload);
    MessageReadersLocal();
    SampleTraceless();
    SampleProgress();
    InsertIgnored(ReadSampleField, SampleOf, OtherSample, a, fs, u, b);
  }

  /** A location knows varint field 1 and length-delimited field 4: not its mapping, not its address. */
  lemma {:induction false} UnknownInLocation(a: seq<byte>, fs: seq<LocationField>, u: seq<byte>, field: nat, wire: nat,
                                             payload: seq<byte>, b: seq<byte>)
    requires Fields(ReadLocationField, a, |a|) == Ok(fs, |a|)
    requires Skippable(u, field, wire, payload) && (field, wire) !in {(1, 0), (4, 2)}
    ensures Seen(LocationOf, Fields(ReadLocationField, a + u + b, |a + u + b|))
         == Seen(LocationOf, Fields(ReadLocationField, a + b, |a + b|))
  {
    hide Fields, Local, Traceless, Tag, LocationOf;
    TaggedInverts(LocationBody, field, wire, payload);
    MessageReadersLocal();
    LocationTraceless();
    InsertIgnored(ReadLocationField, LocationOf, OtherLocation, a, fs, u, b);
  }

  // ---------------------------------------------------------------- messages combine

  function MergeSample(x: Sample, y: Sample): Sample {
    Sample(x.locationIds + y.locationIds, x.values + y.values, x.labels + y.labels)
  }

  lemma {:induction false} SampleOfAppend(fs: seq<SampleField>, gs: seq<SampleField>)
    ensures SampleOf(fs + gs) == MergeSample(SampleOf(fs), SampleOf(gs))
    decreases |gs|
  {
    hide AddToSample, MergeSample;
    var all := fs + gs;
    if gs == [] {
      assert all == fs;
      MergeNoSample(SampleOf(fs));
    } else {
      var front, g := gs[..|gs| - 1], gs[|gs| - 1];
      SampleOfAppend(fs, front);
      assert all[..|all| - 1] == fs + front;
      MergeThenAdd(SampleOf(fs), SampleOf(front), g);
    }
  }

  lemma MergeThenAdd(x: Sample, y: Sample, f: SampleField)
    ensures AddToSample(MergeSample(x, y), f) == MergeSample(x, AddToSample(y, f))
  {
  }

  lemma MergeNoSample(x: Sample)
    ensures MergeSample(x, SampleOf([])) == x
  {
  }

  lemma SampleTraceless()
    ensures Traceless(SampleOf, OtherSample)
  {
    forall fs, gs
      ensures SampleOf(fs + [OtherSample] + gs) == SampleOf(fs + gs)
    {
      SampleOfAppend(fs + [OtherSample], gs);
      SampleOfAppend(fs, gs);
      assert (fs + [OtherSample])[..|fs|] == fs;
    }
  }

  ghost predicate NamesId(fs: seq<LocationField>) { exists i :: 0 <= i < |fs| && fs[i].LocationId? }

  ghost function MergeLocation(x: Location, y: Location, named: bool): Location {
    Location(if named then y.id else x.id, x.lines + y.lines, x.functionIds + y.functionIds)
  }

  lemma {:induction false} LocationOfAppend(fs: seq<LocationField>, gs: seq<LocationField>)
    ensures LocationOf(fs + gs) == MergeLocation(LocationOf(fs), LocationOf(gs), NamesId(gs))
    decreases |gs|
  {
    hide AddToLocation, MergeLocation, NamesId;
    var all := fs + gs;
    if gs == [] {
      assert all == fs;
      MergeNoLocation(LocationOf(fs));
    } else {
      var front, g := gs[..|gs| - 1], gs[|gs| - 1];
      LocationOfAppend(fs, front);
      assert all[..|all| - 1] == fs + front;
      NamesIdNext(front, g);
      assert gs == front + [g];
      MergeThenAddLocation(LocationOf(fs), LocationOf(front), NamesId(front), g);
    }
  }

  lemma MergeThenAddLocation(x: Location, y: Location, named: bool, f: LocationField)
    ensures AddToLocation(MergeLocation(x, y, named), f) == MergeLocation(x, AddToLocation(y, f), named || f.LocationId?)
  {
  }

  lemma MergeNoLocation(x: Location)
    ensures !NamesId([]) && MergeLocation(x, LocationOf([]), false) == x
  {
  }

  lemma NamesIdNext(front: seq<LocationField>, g: LocationField)
    ensures NamesId(front + [g]) <==> NamesId(front) || g.LocationId?
  {
    if NamesId(front) {
      var i :| 0 <= i < |front| && front[i].LocationId?;
      assert (front + [g])[i] == front[i];
    }
    if g.LocationId? { assert (front + [g])[|front|] == g; }
  }

  lemma LocationTraceless()
    ensures Traceless(LocationOf, OtherLocation)
  {
    forall fs, gs
      ensures LocationOf(fs + [OtherLocation] + gs) == LocationOf(fs + gs)
    {
      LocationOfAppend(fs + [OtherLocation], gs);
      LocationOfAppend(fs, gs);
      assert (fs + [OtherLocation])[..|fs|] == fs;
    }
  }

  /** Two halves of a message, each of which decodes to its last byte, decode together: the lists of a
      sample are appended, and so are those of a location, whose later id wins if there is one. */
  lemma {:induction false} MessagesMerge(a: seq<byte>, b: seq<byte>, fs: seq<SampleField>, gs: seq<SampleField>,
                                         ks: seq<LocationField>, ls: seq<LocationField>)
    ensures Fields(ReadSampleField, a, |a|) == Ok(fs, |a|) && Fields(ReadSampleField, b, |b|) == Ok(gs, |b|) ==>
              Seen(SampleOf, Fields(ReadSampleField, a + b, |a + b|)) == Ok(MergeSample(SampleOf(fs), SampleOf(gs)), 0)
    ensures Fields(ReadLocationField, a, |a|) == Ok(ks, |a|) && Fields(ReadLocationField, b, |b|) == Ok(ls, |b|) ==>
              Seen(LocationOf, Fields(ReadLocationField, a + b, |a + b|))
              == Ok(MergeLocation(LocationOf(ks), LocationOf(ls), NamesId(ls)), 0)
  {
    hide Fields, Local, SampleOf, LocationOf;
    MessageReadersLocal();
    SampleProgress();
    if Fields(ReadSampleField, a, |a|) == Ok(fs, |a|) && Fields(ReadSampleField, b, |b|) == Ok(gs, |b|) {
      FieldsAppend(ReadSampleField, a, b, fs);
      SampleOfAppend(fs, gs);
    }
    if Fields(ReadLocationField, a, |a|) == Ok(ks, |a|) && Fields(ReadLocationField, b, |b|) == Ok(ls, |b|) {
      FieldsAppend(ReadLocationField, a, b, ks);
      LocationOfAppend(ks, ls);
    }
  }

  // ---------------------------------------------------------------- the bytes that are written

  /** A varint field under a one-byte tag, left out when zero. */
  function Opt(tag: byte, v: nat): seq<byte> { if v == 0 then [] else [tag] + Varint(v) }

  /** A length-delimited field under a one-byte tag. */
  function Block(tag: byte, payload: seq<byte>): seq<byte> { [tag] + Varint(|payload|) + payload }

  lemma OptIs(num: nat, v: nat)
    requires 1 <= num < 16
    ensures EncodeScalars(NonZero(num, v)) == Opt(8 * num, v)
  {
    if v != 0 {
      assert Tag(num, WIRE_VARINT) == [8 * num];
      assert [Scalar(num, v)][1..] == [];
      assert Concat(EncodeScalar, [Scalar(num, v)][1..]) == [];
    }
  }

  lemma ScalarsAppend(fs: seq<ScalarField>, gs: seq<ScalarField>)
    ensures EncodeScalars(fs + gs) == EncodeScalars(fs) + EncodeScalars(gs)
  {
    ConcatAppend(EncodeScalar, fs, gs);
  }

  /** The flat messages: each number under its tag, in order, and no zeros. */
  lemma {:induction false} ScalarBytes(l: Label, n: Line, g: Function, vt: ValueType)
    ensures EncodeScalars(LabelFields(l)) == Opt(8, l.keyIdx) + Opt(16, l.strIdx) + Opt(24, l.num)
    ensures EncodeScalars(LineFields(n)) == Opt(8, n.functionId) + Opt(16, n.line)
    ensures EncodeScalars(FunctionFields(g)) == Opt(8, g.id) + Opt(16, g.nameIdx) + Opt(32, g.filenameIdx)
    ensures EncodeScalars(ValueTypeFields(vt)) == Opt(8, vt.typeIdx) + Opt(16, vt.unitIdx)
  {
    hide EncodeScalars, NonZero, Opt;
    forall num, v | 1 <= num < 16 { OptIs(num, v); }
    ScalarsAppend(NonZero(1, l.keyIdx), NonZero(2, l.strIdx));
    ScalarsAppend(NonZero(1, l.keyIdx) + NonZero(2, l.strIdx), NonZero(3, l.num));
    ScalarsAppend(NonZero(1, n.functionId), NonZero(2, n.line));
    ScalarsAppend(NonZero(1, g.id), NonZero(2, g.nameIdx));
    ScalarsAppend(NonZero(1, g.id) + NonZero(2, g.nameIdx), NonZero(4, g.filenameIdx));
    ScalarsAppend(NonZero(1, vt.typeIdx), NonZero(2, vt.unitIdx));
  }

  /** One block for each item, in order. */
  function Blocks<T>(tag: byte, enc: T -> seq<byte>, xs: seq<T>): seq<byte> {
    if xs == [] then [] else Block(tag, enc(xs[0])) + Blocks(tag, enc, xs[1..])
  }

  function LabelBytes(l: Label): seq<byte> { Opt(8, l.keyIdx) + Opt(16, l.strIdx) + Opt(24, l.num) }
  function LineBytes(n: Line): seq<byte> { Opt(8, n.functionId) + Opt(16, n.line) }
  function FunctionBytes(g: Function): seq<byte> { Opt(8, g.id) + Opt(16, g.nameIdx) + Opt(32, g.filenameIdx) }
  function ValueTypeBytes(vt: ValueType): seq<byte> { Opt(8, vt.typeIdx) + Opt(16, vt.unitIdx) }

  /** Numbers in one block, and no block for none. */
  function Packed(tag: byte, vs: seq<nat>): seq<byte> { if vs == [] then [] else Block(tag, Concat(Varint, vs)) }

  function SampleBytes(x: Sample): seq<byte> {
    Packed(10, x.locationIds) + Packed(18, x.values) + Blocks(26, LabelBytes, x.labels)
  }

  function LocationBytes(x: Location): seq<byte> { Opt(8, x.id) + Blocks(34, LineBytes, x.lines) }

  function Plain(bs: seq<byte>): seq<byte> { bs }

  function Values<V>(m: Table<V>): seq<V> { seq(|m|, i requires 0 <= i < |m| => m[i].1) }

  function ProfileBytes(p: Profile): seq<byte> {
    Blocks(10, ValueTypeBytes, p.sampleTypes) + Blocks(18, SampleBytes, p.samples)
    + Blocks(34, LocationBytes, Values(p.locations)) + Blocks(42, FunctionBytes, Values(p.functions))
    + Blocks(50, Plain, p.stringTable)
  }

  lemma BlockIs(field: nat, payload: seq<byte>)
    requires 1 <= field < 15
    ensures LengthDelimited(field, payload) == Block(8 * field + 2, payload)
  {
  }

  lemma {:induction false} BlocksAre<F, T>(tag: byte, enc: T -> seq<byte>, xs: seq<T>, write: F -> seq<byte>, fs: seq<F>)
    requires |fs| == |xs| && forall i :: 0 <= i < |xs| ==> write(fs[i]) == Block(tag, enc(xs[i]))
    ensures Concat(write, fs) == Blocks(tag, enc, xs)
    decreases |xs|
  {
    hide Block;
    if xs != [] { BlocksAre(tag, enc, xs[1..], write, fs[1..]); }
  }

  lemma OneEncoded<F>(write: F -> seq<byte>, f: F)
    ensures Concat(write, [f]) == write(f) && Concat(write, []) == []
  {
    assert [f][1..] == [];
  }

  lemma {:induction false} SampleBytesAre(x: Sample)
    ensures EncodeSample(x) == SampleBytes(x)
  {
    hide Block, LengthDelimited, EncodeScalars, Concat, Blocks;
    var ids := if x.locationIds == [] then [] else [LocationIds(x.locationIds)];
    var vs := if x.values == [] then [] else [SampleField.Values(x.values)];
    var ls := LabelEntries(x.labels);
    ConcatAppend(EncodeSampleField, ids + vs, ls);
    ConcatAppend(EncodeSampleField, ids, vs);
    OneEncoded(EncodeSampleField, LocationIds(x.locationIds));
    OneEncoded(EncodeSampleField, SampleField.Values(x.values));
    BlockIs(1, Concat(Varint, x.locationIds));
    BlockIs(2, Concat(Varint, x.values));
    forall i | 0 <= i < |ls|
      ensures EncodeSampleField(ls[i]) == Block(26, LabelBytes(x.labels[i]))
    {
      ScalarBytes(x.labels[i], Line(0, 0), Function(0, 0, 0), ValueType(0, 0));
      BlockIs(3, LabelBytes(x.labels[i]));
    }
    BlocksAre(26, LabelBytes, x.labels, EncodeSampleField, ls);
  }

  lemma {:induction false} LocationBytesAre(x: Location)
    ensures EncodeLocation(x) == LocationBytes(x)
  {
    hide Block, LengthDelimited, EncodeScalars, Concat, Blocks;
    var id := if x.id == 0 then [] else [LocationId(x.id)];
    var ls := LineEntries(x.lines);
    ConcatAppend(EncodeLocationField, id, ls);
    OneEncoded(EncodeLocationField, LocationId(x.id));
    forall i | 0 <= i < |ls|
      ensures EncodeLocationField(ls[i]) == Block(34, LineBytes(x.lines[i]))
    {
      ScalarBytes(Label(0, 0, 0), x.lines[i], Function(0, 0, 0), ValueType(0, 0));
      BlockIs(4, LineBytes(x.lines[i]));
    }
    BlocksAre(34, LineBytes, x.lines, EncodeLocationField, ls);
  }

  lemma EntriesAre(p: Profile)
    ensures Concat(EncodeProfileField, SampleTypeFields(p.sampleTypes)) == Blocks(10, ValueTypeBytes, p.sampleTypes)
    ensures Concat(EncodeProfileField, SamplesFields(p.samples)) == Blocks(18, SampleBytes, p.samples)
    ensures Concat(EncodeProfileField, LocationsFields(p.locations)) == Blocks(34, LocationBytes, Values(p.locations))
  {
    hide Block, LengthDelimited, EncodeScalars, Concat, Blocks, EncodeSample, EncodeLocation, SampleBytes, LocationBytes;
    forall i | 0 <= i < |p.sampleTypes|
      ensures EncodeProfileField(SampleTypeFields(p.sampleTypes)[i]) == Block(10, ValueTypeBytes(p.sampleTypes[i]))
    {
      ScalarBytes(Label(0, 0, 0), Line(0, 0), Function(0, 0, 0), p.sampleTypes[i]);
      BlockIs(1, ValueTypeBytes(p.sampleTypes[i]));
    }
    BlocksAre(10, ValueTypeBytes, p.sampleTypes, EncodeProfileField, SampleTypeFields(p.sampleTypes));
    forall i | 0 <= i < |p.samples|
      ensures EncodeProfileField(SamplesFields(p.samples)[i]) == Block(18, SampleBytes(p.samples[i]))
    {
      SampleBytesAre(p.samples[i]);
      BlockIs(2, SampleBytes(p.samples[i]));
    }
    BlocksAre(18, SampleBytes, p.samples, EncodeProfileField, SamplesFields(p.samples));
    forall i | 0 <= i < |p.locations|
      ensures EncodeProfileField(LocationsFields(p.locations)[i]) == Block(34, LocationBytes(Values(p.locations)[i]))
    {
      LocationBytesAre(p.locations[i].1);
      BlockIs(4, LocationBytes(p.locations[i].1));
    }
    BlocksAre(34, LocationBytes, Values(p.locations), EncodeProfileField, LocationsFields(p.locations));
  }

  lemma MoreEntriesAre(p: Profile)
    ensures Concat(EncodeProfileField, FunctionsFields(p.functions)) == Blocks(42, FunctionBytes, Values(p.functions))
    ensures Concat(EncodeProfileField, StringsFields(p.stringTable)) == Blocks(50, Plain, p.stringTable)
  {
    hide Block, LengthDelimited, EncodeScalars, Concat, Blocks;
    forall i | 0 <= i < |p.functions|
      ensures EncodeProfileField(FunctionsFields(p.functions)[i]) == Block(42, FunctionBytes(Values(p.functions)[i]))
    {
      ScalarBytes(Label(0, 0, 0), Line(0, 0), p.functions[i].1, ValueType(0, 0));
      BlockIs(5, FunctionBytes(p.functions[i].1));
    }
    BlocksAre(42, FunctionBytes, Values(p.functions), EncodeProfileField, FunctionsFields(p.functions));
    forall i | 0 <= i < |p.stringTable|
      ensures EncodeProfileField(StringsFields(p.stringTable)[i]) == Block(50, Plain(p.stringTable[i]))
    {
      BlockIs(6, p.stringTable[i]);
    }
    BlocksAre(50, Plain, p.stringTable, EncodeProfileField, StringsFields(p.stringTable));
  }

  /** What `encodePprof` writes, to the byte: the five lists in order, each entry in a block under its
      tag, ids and values packed, zeros left out. */
  lemma {:induction false} EncodedBytes(p: Profile)
    ensures Encode(p) == ProfileBytes(p)
  {
    hide Concat, Blocks, EncodeProfileField, SampleTypeFields, SamplesFields, LocationsFields, FunctionsFields, StringsFields;
    var a, b, c, d, e := SampleTypeFields(p.sampleTypes), SamplesFields(p.samples), LocationsFields(p.locations),
      FunctionsFields(p.functions), StringsFields(p.stringTable);
    ConcatAppend(EncodeProfileField, a + b + c + d, e);
    ConcatAppend(EncodeProfileField, a + b + c, d);
    ConcatAppend(EncodeProfileField, a + b, c);
    ConcatAppend(EncodeProfileField, a, b);
    EntriesAre(p);
    MoreEntriesAre(p);
  }
}
