/** The encoder as it runs: bytes pushed one at a time into a buffer that doubles when full. */
module PprofWriter {
  import opened Options
  import opened Bytes
  import opened Wire
  import opened Pprof
  import PprofLaws
  import PprofReader

  const INITIAL_CAPACITY: nat := 16384

  /** The sink of every writer.  The source also writes nested messages into plain arrays,
      whose `push` promises the same. */
  class ByteBuilder {
    var buf: array<byte>
    var len: nat

    ghost predicate Valid() reads this, buf { len <= buf.Length && buf.Length > 0 }

    ghost function Bytes(): seq<byte>
      requires Valid()
      reads this, buf
    {
      buf[..len]
    }

    constructor ()
      ensures Valid() && fresh(buf) && Bytes() == []
    {
      buf := new byte[INITIAL_CAPACITY];
      len := 0;
    }

    /** Appends, whether or not the buffer has to grow first. */
    method Push(b: byte)
      requires Valid()
      modifies this, buf
      ensures Valid() && (buf == old(buf) || fresh(buf))
      ensures Bytes() == old(Bytes()) + [b]
    {
      if len >= buf.Length {
        var next := new byte[buf.Length * 2];
        forall i | 0 <= i < buf.Length {
          next[i] := buf[i];
        }
        assert next[..len] == buf[..len];
        buf := next;
      }
      buf[len] := b;
      len := len + 1;
    }

    method ToArray() returns (bs: seq<byte>)
      requires Valid()
      ensures bs == Bytes()
    {
      bs := buf[..len];
    }
  }

  lemma VarintByte(s: seq<byte>, v: nat)
    ensures v < 128 ==> Varint(v) == [v]
    ensures v >= 128 ==> s + Varint(v) == (s + [128 + v % 128]) + Varint(v / 128)
  {
  }

  method WriteVarint(out: ByteBuilder, value: nat)
    requires out.Valid()
    modifies out, out.buf
    ensures out.Valid() && (out.buf == old(out.buf) || fresh(out.buf))
    ensures out.Bytes() == old(out.Bytes()) + Varint(value)
  {
    hide Varint;
    var v := value;
    while v >= 128
      invariant out.Valid() && (out.buf == old(out.buf) || fresh(out.buf))
      invariant out.Bytes() + Varint(v) == old(out.Bytes()) + Varint(value)
      decreases v
    {
      VarintByte(out.Bytes(), v);
      out.Push(128 + v % 128);
      v := v / 128;
    }
    VarintByte(out.Bytes(), v);
    out.Push(v);
  }

  method WriteTag(out: ByteBuilder, fieldNum: nat, wireType: nat)
    requires out.Valid()
    modifies out, out.buf
    ensures out.Valid() && (out.buf == old(out.buf) || fresh(out.buf))
    ensures out.Bytes() == old(out.Bytes()) + Tag(fieldNum, wireType)
  {
    WriteVarint(out, 8 * fieldNum + wireType);
  }

  method WriteLengthDelimited(out: ByteBuilder, fieldNum: nat, bytes: seq<byte>)
    requires out.Valid()
    modifies out, out.buf
    ensures out.Valid() && (out.buf == old(out.buf) || fresh(out.buf))
    ensures out.Bytes() == old(out.Bytes()) + LengthDelimited(fieldNum, bytes)
  {
    hide Varint;
    WriteTag(out, fieldNum, WIRE_LENGTH_DELIMITED);
    WriteVarint(out, |bytes|);
    ghost var head := out.Bytes();
    for i := 0 to |bytes|
      invariant out.Valid() && (out.buf == old(out.buf) || fresh(out.buf))
      invariant out.Bytes() == head + bytes[..i]
    {
      out.Push(bytes[i]);
      assert bytes[..i + 1] == bytes[..i] + [bytes[i]];
    }
    assert bytes[..|bytes|] == bytes;
  }

  lemma ConcatNext<F>(enc: F -> seq<byte>, fs: seq<F>, i: nat)
    requires i < |fs|
    ensures Concat(enc, fs[..i + 1]) == Concat(enc, fs[..i]) + enc(fs[i])
  {
    assert fs[..i + 1] == fs[..i] + [fs[i]];
    ConcatAppend(enc, fs[..i], [fs[i]]);
    ConcatOne(enc, fs[i]);
  }

  lemma ConcatOne<F>(enc: F -> seq<byte>, f: F)
    ensures Concat(enc, [f]) == enc(f)
  {
    assert [f][1..] == [];
    assert enc(f) + [] == enc(f);
  }

  /** The bytes of a packed field, absent when there are no values. */
  function Packed(fieldNum: nat, values: seq<nat>): seq<byte> {
    if values == [] then [] else LengthDelimited(fieldNum, Concat(Varint, values))
  }

  method WritePackedVarints(out: ByteBuilder, fieldNum: nat, values: seq<nat>)
    requires out.Valid()
    modifies out, out.buf
    ensures out.Valid() && (out.buf == old(out.buf) || fresh(out.buf))
    ensures out.Bytes() == old(out.Bytes()) + Packed(fieldNum, values)
  {
    hide Varint, Concat, LengthDelimited;
    if |values| == 0 { return; }
    var inner := new ByteBuilder();
    assert Concat(Varint, values[..0]) == [] by { ConcatNone(Varint, values); }
    for i := 0 to |values|
      invariant inner.Valid() && fresh(inner) && fresh(inner.buf)
      invariant out.Valid() && out.buf == old(out.buf) && out.Bytes() == old(out.Bytes())
      invariant inner.Bytes() == Concat(Varint, values[..i])
    {
      WriteVarint(inner, values[i]);
      ConcatNext(Varint, values, i);
    }
    assert values[..|values|] == values;
    var bytes := inner.ToArray();
    WriteLengthDelimited(out, fieldNum, bytes);
  }

  lemma ConcatNone<F>(enc: F -> seq<byte>, fs: seq<F>)
    ensures Concat(enc, fs[..0]) == []
  {
  }

  lemma NonZeroBytes(fieldNum: nat, value: nat)
    ensures EncodeScalars(NonZero(fieldNum, value))
         == if value == 0 then [] else Tag(fieldNum, WIRE_VARINT) + Varint(value)
  {
    ConcatOne(EncodeScalar, Scalar(fieldNum, value));
  }

  /** A scalar field, written only when it is not zero. */
  method WriteNonZero(out: ByteBuilder, fieldNum: nat, value: nat)
    requires out.Valid()
    modifies out, out.buf
    ensures out.Valid() && (out.buf == old(out.buf) || fresh(out.buf))
    ensures out.Bytes() == old(out.Bytes()) + EncodeScalars(NonZero(fieldNum, value))
  {
    hide Varint, Tag, EncodeScalars;
    NonZeroBytes(fieldNum, value);
    if value != 0 {
      WriteTag(out, fieldNum, WIRE_VARINT);
      WriteVarint(out, value);
    }
  }

  lemma ScalarsAppend(fs: seq<ScalarField>, gs: seq<ScalarField>)
    ensures EncodeScalars(fs + gs) == EncodeScalars(fs) + EncodeScalars(gs)
  {
    ConcatAppend(EncodeScalar, fs, gs);
  }

  method EncodeLabel(l: Label) returns (bytes: seq<byte>)
    ensures bytes == EncodeScalars(LabelFields(l))
  {
    hide EncodeScalars, NonZero;
    var out := new ByteBuilder();
    WriteNonZero(out, 1, l.keyIdx);
    WriteNonZero(out, 2, l.strIdx);
    WriteNonZero(out, 3, l.num);
    ScalarsAppend(NonZero(1, l.keyIdx), NonZero(2, l.strIdx));
    ScalarsAppend(NonZero(1, l.keyIdx) + NonZero(2, l.strIdx), NonZero(3, l.num));
    bytes := out.ToArray();
  }

  method EncodeValueType(vt: ValueType) returns (bytes: seq<byte>)
    ensures bytes == EncodeScalars(ValueTypeFields(vt))
  {
    hide EncodeScalars, NonZero;
    var out := new ByteBuilder();
    WriteNonZero(out, 1, vt.typeIdx);
    WriteNonZero(out, 2, vt.unitIdx);
    ScalarsAppend(NonZero(1, vt.typeIdx), NonZero(2, vt.unitIdx));
    bytes := out.ToArray();
  }

  method EncodeLine(l: Line) returns (bytes: seq<byte>)
    ensures bytes == EncodeScalars(LineFields(l))
  {
    hide EncodeScalars, NonZero;
    var lineBytes := new ByteBuilder();
    WriteNonZero(lineBytes, 1, l.functionId);
    WriteNonZero(lineBytes, 2, l.line);
    ScalarsAppend(NonZero(1, l.functionId), NonZero(2, l.line));
    bytes := lineBytes.ToArray();
  }

  method EncodeFunction(g: Function) returns (bytes: seq<byte>)
    ensures bytes == EncodeScalars(FunctionFields(g))
  {
    hide EncodeScalars, NonZero;
    var out := new ByteBuilder();
    WriteNonZero(out, 1, g.id);
    WriteNonZero(out, 2, g.nameIdx);
    WriteNonZero(out, 4, g.filenameIdx);
    ScalarsAppend(NonZero(1, g.id), NonZero(2, g.nameIdx));
    ScalarsAppend(NonZero(1, g.id) + NonZero(2, g.nameIdx), NonZero(4, g.filenameIdx));
    bytes := out.ToArray();
  }

  lemma SampleParts(x: Sample)
    ensures EncodeSample(x) == Packed(1, x.locationIds) + Packed(2, x.values)
                               + Concat(EncodeSampleField, LabelEntries(x.labels))
  {
    var a: seq<SampleField> := if x.locationIds == [] then [] else [LocationIds(x.locationIds)];
    var b: seq<SampleField> := if x.values == [] then [] else [Values(x.values)];
    ConcatOne(EncodeSampleField, LocationIds(x.locationIds));
    ConcatOne(EncodeSampleField, Values(x.values));
    ConcatAppend(EncodeSampleField, a, b);
    ConcatAppend(EncodeSampleField, a + b, LabelEntries(x.labels));
  }

  method EncodeSampleBytes(x: Sample) returns (bytes: seq<byte>)
    ensures bytes == EncodeSample(x)
  {
    hide EncodeSample, Concat, LengthDelimited, Packed, EncodeScalars, LabelFields;
    var out := new ByteBuilder();
    WritePackedVarints(out, 1, x.locationIds);
    WritePackedVarints(out, 2, x.values);
    ghost var head := Packed(1, x.locationIds) + Packed(2, x.values);
    assert out.Bytes() == head;
    ghost var fs := LabelEntries(x.labels);
    ConcatNone(EncodeSampleField, fs);
    for i := 0 to |x.labels|
      invariant out.Valid() && fresh(out) && fresh(out.buf)
      invariant out.Bytes() == head + Concat(EncodeSampleField, fs[..i])
    {
      var lab := EncodeLabel(x.labels[i]);
      WriteLengthDelimited(out, 3, lab);
      ConcatNext(EncodeSampleField, fs, i);
    }
    assert fs[..|fs|] == fs;
    SampleParts(x);
    bytes := out.ToArray();
  }

  lemma LocationParts(x: Location)
    ensures EncodeLocation(x) == EncodeScalars(NonZero(1, x.id)) + Concat(EncodeLocationField, LineEntries(x.lines))
  {
    var a: seq<LocationField> := if x.id == 0 then [] else [LocationId(x.id)];
    ConcatOne(EncodeLocationField, LocationId(x.id));
    ConcatOne(EncodeScalar, Scalar(1, x.id));
    ConcatAppend(EncodeLocationField, a, LineEntries(x.lines));
  }

  /** A location whose lists may be missing, as a caller without types can pass it. */
  datatype LooseLocation = LooseLocation(id: nat, lines: Option<seq<Line>>, functionIds: Option<seq<nat>>)

  /** Missing lines are made up from the function ids, so that those survive. */
  function Completed(x: LooseLocation): (l: Location)
    ensures x.lines.None? ==> ConsistentLocation(l)
  {
    var ids := if x.functionIds.Some? then x.functionIds.value else [];
    var lines := if x.lines.Some? then x.lines.value else seq(|ids|, i requires 0 <= i < |ids| => Line(ids[i], 0));
    Location(x.id, lines, ids)
  }

  method EncodeLocationBytes(x: LooseLocation) returns (bytes: seq<byte>)
    ensures bytes == EncodeLocation(Completed(x))
  {
    hide EncodeLocation, Concat, LengthDelimited, EncodeScalars;
    var lines := Completed(x).lines;
    var out := new ByteBuilder();
    WriteNonZero(out, 1, x.id);
    ghost var head := out.Bytes();
    ghost var fs := LineEntries(lines);
    ConcatNone(EncodeLocationField, fs);
    for i := 0 to |lines|
      invariant out.Valid() && fresh(out) && fresh(out.buf)
      invariant out.Bytes() == head + Concat(EncodeLocationField, fs[..i])
    {
      var lineBytes := EncodeLine(lines[i]);
      WriteLengthDelimited(out, 4, lineBytes);
      ConcatNext(EncodeLocationField, fs, i);
    }
    assert fs[..|fs|] == fs;
    LocationParts(Completed(x));
    bytes := out.ToArray();
  }

  method WriteSampleTypes(out: ByteBuilder, xs: seq<ValueType>)
    requires out.Valid()
    modifies out, out.buf
    ensures out.Valid() && (out.buf == old(out.buf) || fresh(out.buf))
    ensures out.Bytes() == old(out.Bytes()) + Concat(EncodeProfileField, SampleTypeFields(xs))
  {
    hide Concat, LengthDelimited, EncodeScalars, EncodeSample, EncodeLocation;
    ghost var fs := SampleTypeFields(xs);
    ConcatNone(EncodeProfileField, fs);
    for i := 0 to |xs|
      invariant out.Valid() && (out.buf == old(out.buf) || fresh(out.buf))
      invariant out.Bytes() == old(out.Bytes()) + Concat(EncodeProfileField, fs[..i])
    {
      var payload := EncodeValueType(xs[i]);
      WriteLengthDelimited(out, 1, payload);
      ConcatNext(EncodeProfileField, fs, i);
    }
    assert fs[..|fs|] == fs;
  }

  method WriteSamples(out: ByteBuilder, xs: seq<Sample>)
    requires out.Valid()
    modifies out, out.buf
    ensures out.Valid() && (out.buf == old(out.buf) || fresh(out.buf))
    ensures out.Bytes() == old(out.Bytes()) + Concat(EncodeProfileField, SamplesFields(xs))
  {
    hide Concat, LengthDelimited, EncodeScalars, EncodeSample, EncodeLocation;
    ghost var fs := SamplesFields(xs);
    ConcatNone(EncodeProfileField, fs);
    for i := 0 to |xs|
      invariant out.Valid() && (out.buf == old(out.buf) || fresh(out.buf))
      invariant out.Bytes() == old(out.Bytes()) + Concat(EncodeProfileField, fs[..i])
    {
      var payload := EncodeSampleBytes(xs[i]);
      WriteLengthDelimited(out, 2, payload);
      ConcatNext(EncodeProfileField, fs, i);
    }
    assert fs[..|fs|] == fs;
  }

  method WriteLocations(out: ByteBuilder, xs: Table<Location>)
    requires out.Valid()
    modifies out, out.buf
    ensures out.Valid() && (out.buf == old(out.buf) || fresh(out.buf))
    ensures out.Bytes() == old(out.Bytes()) + Concat(EncodeProfileField, LocationsFields(xs))
  {
    hide Concat, LengthDelimited, EncodeScalars, EncodeSample, EncodeLocation;
    ghost var fs := LocationsFields(xs);
    ConcatNone(EncodeProfileField, fs);
    for i := 0 to |xs|
      invariant out.Valid() && (out.buf == old(out.buf) || fresh(out.buf))
      invariant out.Bytes() == old(out.Bytes()) + Concat(EncodeProfileField, fs[..i])
    {
      var loc := xs[i].1;
      var payload := EncodeLocationBytes(LooseLocation(loc.id, Some(loc.lines), Some(loc.functionIds)));
      WriteLengthDelimited(out, 4, payload);
      ConcatNext(EncodeProfileField, fs, i);
    }
    assert fs[..|fs|] == fs;
  }

  method WriteFunctions(out: ByteBuilder, xs: Table<Function>)
    requires out.Valid()
    modifies out, out.buf
    ensures out.Valid() && (out.buf == old(out.buf) || fresh(out.buf))
    ensures out.Bytes() == old(out.Bytes()) + Concat(EncodeProfileField, FunctionsFields(xs))
  {
    hide Concat, LengthDelimited, EncodeScalars, EncodeSample, EncodeLocation;
    ghost var fs := FunctionsFields(xs);
    ConcatNone(EncodeProfileField, fs);
    for i := 0 to |xs|
      invariant out.Valid() && (out.buf == old(out.buf) || fresh(out.buf))
      invariant out.Bytes() == old(out.Bytes()) + Concat(EncodeProfileField, fs[..i])
    {
      var payload := EncodeFunction(xs[i].1);
      WriteLengthDelimited(out, 5, payload);
      ConcatNext(EncodeProfileField, fs, i);
    }
    assert fs[..|fs|] == fs;
  }

  method WriteStrings(out: ByteBuilder, xs: seq<seq<byte>>)
    requires out.Valid()
    modifies out, out.buf
    ensures out.Valid() && (out.buf == old(out.buf) || fresh(out.buf))
    ensures out.Bytes() == old(out.Bytes()) + Concat(EncodeProfileField, StringsFields(xs))
  {
    hide Concat, LengthDelimited, EncodeScalars, EncodeSample, EncodeLocation;
    ghost var fs := StringsFields(xs);
    ConcatNone(EncodeProfileField, fs);
    for i := 0 to |xs|
      invariant out.Valid() && (out.buf == old(out.buf) || fresh(out.buf))
      invariant out.Bytes() == old(out.Bytes()) + Concat(EncodeProfileField, fs[..i])
    {
      var payload := xs[i];
      WriteLengthDelimited(out, 6, payload);
      ConcatNext(EncodeProfileField, fs, i);
    }
    assert fs[..|fs|] == fs;
  }

  lemma ProfileParts(p: Profile)
    ensures Encode(p) == Concat(EncodeProfileField, SampleTypeFields(p.sampleTypes))
                         + Concat(EncodeProfileField, SamplesFields(p.samples))
                         + Concat(EncodeProfileField, LocationsFields(p.locations))
                         + Concat(EncodeProfileField, FunctionsFields(p.functions))
                         + Concat(EncodeProfileField, StringsFields(p.stringTable))
  {
    hide Concat, SampleTypeFields, SamplesFields, LocationsFields, FunctionsFields, StringsFields;
    var a, b, c, d, e := SampleTypeFields(p.sampleTypes), SamplesFields(p.samples), LocationsFields(p.locations),
                         FunctionsFields(p.functions), StringsFields(p.stringTable);
    ConcatAppend(EncodeProfileField, a, b);
    ConcatAppend(EncodeProfileField, a + b, c);
    ConcatAppend(EncodeProfileField, a + b + c, d);
    ConcatAppend(EncodeProfileField, a + b + c + d, e);
  }

  /** `encodePprof`: value types, samples, locations, functions and strings, in this order. */
  method EncodePprof(p: Profile) returns (bytes: seq<byte>)
    ensures bytes == Encode(p)
  {
    hide Concat, Encode, SampleTypeFields, SamplesFields, LocationsFields, FunctionsFields, StringsFields;
    var out := new ByteBuilder();
    WriteSampleTypes(out, p.sampleTypes);
    WriteSamples(out, p.samples);
    WriteLocations(out, p.locations);
    WriteFunctions(out, p.functions);
    WriteStrings(out, p.stringTable);
    ProfileParts(p);
    bytes := out.ToArray();
  }

  /** What is encoded into the growing buffer comes back from the decoder's cursor. */
  method EncodeThenDecode(p: Profile) returns (res: PprofReader.Result<Profile>)
    requires WellFormed(p) && SafeNumbers(p) && |Encode(p)| < MAX_SAFE
    ensures res == PprofReader.Success(p)
  {
    hide Encode, Decode;
    var bytes := EncodePprof(p);
    PprofLaws.RoundTrip(p);
    res := PprofReader.DecodePprof(bytes);
  }
}
