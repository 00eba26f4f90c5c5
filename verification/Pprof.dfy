/** The pprof profile: its entities, what a byte buffer decodes to, and what a profile encodes to. */
module Pprof {
  import opened Bytes
  import opened Wire

  datatype Label = Label(keyIdx: nat, strIdx: nat, num: nat)
  datatype Sample = Sample(locationIds: seq<nat>, values: seq<nat>, labels: seq<Label>)
  datatype Line = Line(functionId: nat, line: nat)
  datatype Location = Location(id: nat, lines: seq<Line>, functionIds: seq<nat>)
  datatype Function = Function(id: nat, nameIdx: nat, filenameIdx: nat)
  datatype ValueType = ValueType(typeIdx: nat, unitIdx: nat)

  /** A JavaScript `Map` keyed by number: its entries in insertion order. */
  type Table<V> = seq<(nat, V)>

  datatype Profile = Profile(
    sampleTypes: seq<ValueType>,
    samples: seq<Sample>,
    locations: Table<Location>,
    functions: Table<Function>,
    stringTable: seq<seq<byte>>)

  const EMPTY := Profile([], [], [], [], [])

  // ---------------------------------------------------------------- tables

  ghost predicate DistinctKeys<V>(m: Table<V>) {
    forall i, j :: 0 <= i < j < |m| ==> m[i].0 != m[j].0
  }

  function KeyIndex<V>(m: Table<V>, key: nat): (i: nat)
    ensures i <= |m|
    ensures i < |m| ==> m[i].0 == key
    ensures forall j :: 0 <= j < i ==> m[j].0 != key
  {
    if m == [] || m[0].0 == key then 0 else 1 + KeyIndex(m[1..], key)
  }

  /** `Map.set`: an existing key keeps its place. */
  function Set<V>(m: Table<V>, key: nat, value: V): Table<V> {
    var i := KeyIndex(m, key);
    if i < |m| then m[i := (key, value)] else m + [(key, value)]
  }

  function SetAll<V>(m: Table<V>, entries: Table<V>): Table<V> {
    if entries == [] then m
    else
      var last := entries[|entries| - 1];
      Set(SetAll(m, entries[..|entries| - 1]), last.0, last.1)
  }

  // ---------------------------------------------------------------- scalar messages

  datatype ScalarField = Scalar(num: nat, value: nat) | OtherScalar

  /** A field of a message whose known fields are all varints. */
  function ScalarBody(known: set<nat>, field: nat, wire: nat, s: seq<byte>): Read<ScalarField> {
    if field in known && wire == WIRE_VARINT then
      match ReadVarint(s) { case Ok(v, n) => Ok(Scalar(field, v), n) case Err(e) => Err(e) }
    else
      match SkipField(s, wire) { case Ok(_, n) => Ok(OtherScalar, n) case Err(e) => Err(e) }
  }

  function LabelBody(field: nat, wire: nat, s: seq<byte>): Read<ScalarField> {
    ScalarBody({1, 2, 3}, field, wire, s)
  }
  function PairBody(field: nat, wire: nat, s: seq<byte>): Read<ScalarField> {
    ScalarBody({1, 2}, field, wire, s)
  }
  function FunctionBody(field: nat, wire: nat, s: seq<byte>): Read<ScalarField> {
    ScalarBody({1, 2, 4}, field, wire, s)
  }

  function ReadLabelField(s: seq<byte>): (r: Read<ScalarField>)
    ensures r.Ok? ==> r.size >= 1
  {
    Tagged(LabelBody, s)
  }

  function ReadPairField(s: seq<byte>): (r: Read<ScalarField>)
    ensures r.Ok? ==> r.size >= 1
  {
    Tagged(PairBody, s)
  }

  function ReadFunctionField(s: seq<byte>): (r: Read<ScalarField>)
    ensures r.Ok? ==> r.size >= 1
  {
    Tagged(FunctionBody, s)
  }

  /** Protobuf's rule for a repeated scalar field: the last one wins, and absent means zero. */
  function LastValue(fs: seq<ScalarField>, num: nat): nat {
    if fs == [] then 0
    else
      var f := fs[|fs| - 1];
      if f.Scalar? && f.num == num then f.value else LastValue(fs[..|fs| - 1], num)
  }

  function LabelOf(fs: seq<ScalarField>): Label {
    Label(LastValue(fs, 1), LastValue(fs, 2), LastValue(fs, 3))
  }
  function LineOf(fs: seq<ScalarField>): Line { Line(LastValue(fs, 1), LastValue(fs, 2)) }
  function FunctionOf(fs: seq<ScalarField>): Function {
    Function(LastValue(fs, 1), LastValue(fs, 2), LastValue(fs, 4))
  }
  function ValueTypeOf(fs: seq<ScalarField>): ValueType { ValueType(LastValue(fs, 1), LastValue(fs, 2)) }

  // ---------------------------------------------------------------- samples and locations

  datatype SampleField = LocationIds(ids: seq<nat>) | Values(values: seq<nat>) | SampleLabel(lab: Label) | OtherSample

  lemma VarintProgress()
    ensures Progress(ReadVarint)
  {
  }

  /** A repeated varint field, packed or one value at a time. */
  function ReadRepeated(s: seq<byte>, wire: nat): (r: Read<seq<nat>>)
    requires wire == WIRE_VARINT || wire == WIRE_LENGTH_DELIMITED
    ensures r.Ok? ==> r.size >= 1 && r.size >= |r.value|
  {
    VarintProgress();
    if wire == WIRE_LENGTH_DELIMITED then Nested(ReadVarint, s)
    else match ReadVarint(s)
      case Err(e) => Err(e)
      case Ok(v, n) => Ok([v], n)
  }

  predicate Repeatable(wire: nat) { wire == WIRE_VARINT || wire == WIRE_LENGTH_DELIMITED }

  function SampleBody(field: nat, wire: nat, s: seq<byte>): Read<SampleField> {
    if field == 1 && Repeatable(wire) then
      match ReadRepeated(s, wire) { case Ok(vs, n) => Ok(LocationIds(vs), n) case Err(e) => Err(e) }
    else if field == 2 && Repeatable(wire) then
      match ReadRepeated(s, wire) { case Ok(vs, n) => Ok(Values(vs), n) case Err(e) => Err(e) }
    else if field == 3 && wire == WIRE_LENGTH_DELIMITED then
      match Nested(ReadLabelField, s) { case Ok(fs, n) => Ok(SampleLabel(LabelOf(fs)), n) case Err(e) => Err(e) }
    else
      match SkipField(s, wire) { case Ok(_, n) => Ok(OtherSample, n) case Err(e) => Err(e) }
  }

  function ReadSampleField(s: seq<byte>): (r: Read<SampleField>)
    ensures r.Ok? ==> r.size >= 1
  {
    Tagged(SampleBody, s)
  }

  function AddToSample(x: Sample, f: SampleField): Sample {
    match f
    case LocationIds(ids) => x.(locationIds := x.locationIds + ids)
    case Values(vs) => x.(values := x.values + vs)
    case SampleLabel(l) => x.(labels := x.labels + [l])
    case OtherSample => x
  }

  function SampleOf(fs: seq<SampleField>): Sample {
    if fs == [] then Sample([], [], []) else AddToSample(SampleOf(fs[..|fs| - 1]), fs[|fs| - 1])
  }

  datatype LocationField = LocationId(id: nat) | LocationLine(line: Line) | OtherLocation

  function LocationBody(field: nat, wire: nat, s: seq<byte>): Read<LocationField> {
    if field == 1 && wire == WIRE_VARINT then
      match ReadVarint(s) { case Ok(v, n) => Ok(LocationId(v), n) case Err(e) => Err(e) }
    else if field == 4 && wire == WIRE_LENGTH_DELIMITED then
      match Nested(ReadPairField, s) { case Ok(fs, n) => Ok(LocationLine(LineOf(fs)), n) case Err(e) => Err(e) }
    else
      match SkipField(s, wire) { case Ok(_, n) => Ok(OtherLocation, n) case Err(e) => Err(e) }
  }

  function ReadLocationField(s: seq<byte>): (r: Read<LocationField>)
    ensures r.Ok? ==> r.size >= 1
  {
    Tagged(LocationBody, s)
  }

  function AddToLocation(x: Location, f: LocationField): Location {
    match f
    case LocationId(id) => x.(id := id)
    case LocationLine(l) => x.(lines := x.lines + [l], functionIds := x.functionIds + [l.functionId])
    case OtherLocation => x
  }

  function LocationOf(fs: seq<LocationField>): Location {
    if fs == [] then Location(0, [], []) else AddToLocation(LocationOf(fs[..|fs| - 1]), fs[|fs| - 1])
  }

  // ---------------------------------------------------------------- profiles

  datatype ProfileField =
    | SampleTypeEntry(valueType: ValueType)
    | SampleEntry(sample: Sample)
    | LocationEntry(location: Location)
    | FunctionEntry(fn: Function)
    | StringEntry(bytes: seq<byte>)
    | OtherEntry

  function ReadString(s: seq<byte>): (r: Read<seq<byte>>)
    ensures r.Ok? ==> r.size >= 1
  {
    match ReadVarint(s)
    case Err(e) => Err(e)
    case Ok(len, k) =>
      if len > |Rest(s, k)| then Err(BytesOutOfRange) else Ok(Rest(s, k)[..len], k + len)
  }

  function ProfileBody(field: nat, wire: nat, s: seq<byte>): Read<ProfileField> {
    if field == 1 && wire == WIRE_LENGTH_DELIMITED then
      match Nested(ReadPairField, s) {
        case Ok(fs, n) => Ok(SampleTypeEntry(ValueTypeOf(fs)), n)
        case Err(e) => Err(e)
      }
    else if field == 2 && wire == WIRE_LENGTH_DELIMITED then
      match Nested(ReadSampleField, s) { case Ok(fs, n) => Ok(SampleEntry(SampleOf(fs)), n) case Err(e) => Err(e) }
    else if field == 4 && wire == WIRE_LENGTH_DELIMITED then
      match Nested(ReadLocationField, s) {
        case Ok(fs, n) => Ok(LocationEntry(LocationOf(fs)), n)
        case Err(e) => Err(e)
      }
    else if field == 5 && wire == WIRE_LENGTH_DELIMITED then
      match Nested(ReadFunctionField, s) {
        case Ok(fs, n) => Ok(FunctionEntry(FunctionOf(fs)), n)
        case Err(e) => Err(e)
      }
    else if field == 6 && wire == WIRE_LENGTH_DELIMITED then
      match ReadString(s) { case Ok(bs, n) => Ok(StringEntry(bs), n) case Err(e) => Err(e) }
    else
      match SkipField(s, wire) { case Ok(_, n) => Ok(OtherEntry, n) case Err(e) => Err(e) }
  }

  function ReadProfileField(s: seq<byte>): (r: Read<ProfileField>)
    ensures r.Ok? ==> r.size >= 1
  {
    Tagged(ProfileBody, s)
  }

  function AddToProfile(p: Profile, f: ProfileField): Profile {
    match f
    case SampleTypeEntry(vt) => p.(sampleTypes := p.sampleTypes + [vt])
    case SampleEntry(x) => p.(samples := p.samples + [x])
    case LocationEntry(l) => p.(locations := Set(p.locations, l.id, l))
    case FunctionEntry(g) => p.(functions := Set(p.functions, g.id, g))
    case StringEntry(bs) => p.(stringTable := p.stringTable + [bs])
    case OtherEntry => p
  }

  function ProfileOf(fs: seq<ProfileField>): Profile {
    if fs == [] then EMPTY else AddToProfile(ProfileOf(fs[..|fs| - 1]), fs[|fs| - 1])
  }

  function Built(r: Read<seq<ProfileField>>): Read<Profile> {
    match r
    case Err(e) => Err(e)
    case Ok(fs, n) => Ok(ProfileOf(fs), n)
  }

  /** `decodePprof`, with the cursor's final position. */
  function Decode(raw: seq<byte>): Read<Profile> { Built(Fields(ReadProfileField, raw, |raw|)) }

  // ---------------------------------------------------------------- encoding

  function EncodeScalar(f: ScalarField): seq<byte> {
    match f
    case Scalar(num, value) => Tag(num, WIRE_VARINT) + Varint(value)
    case OtherScalar => []
  }

  /** Zero fields are not written. */
  function NonZero(num: nat, value: nat): seq<ScalarField> {
    if value == 0 then [] else [Scalar(num, value)]
  }

  function LabelFields(l: Label): seq<ScalarField> {
    NonZero(1, l.keyIdx) + NonZero(2, l.strIdx) + NonZero(3, l.num)
  }
  function LineFields(l: Line): seq<ScalarField> { NonZero(1, l.functionId) + NonZero(2, l.line) }
  function FunctionFields(g: Function): seq<ScalarField> {
    NonZero(1, g.id) + NonZero(2, g.nameIdx) + NonZero(4, g.filenameIdx)
  }
  function ValueTypeFields(vt: ValueType): seq<ScalarField> { NonZero(1, vt.typeIdx) + NonZero(2, vt.unitIdx) }

  function EncodeScalars(fs: seq<ScalarField>): seq<byte> { Concat(EncodeScalar, fs) }

  function EncodeSampleField(f: SampleField): seq<byte> {
    match f
    case LocationIds(ids) => LengthDelimited(1, Concat(Varint, ids))
    case Values(vs) => LengthDelimited(2, Concat(Varint, vs))
    case SampleLabel(l) => LengthDelimited(3, EncodeScalars(LabelFields(l)))
    case OtherSample => []
  }

  function LabelEntries(ls: seq<Label>): seq<SampleField> {
    seq(|ls|, i requires 0 <= i < |ls| => SampleLabel(ls[i]))
  }

  function SampleFields(x: Sample): seq<SampleField> {
    (if x.locationIds == [] then [] else [LocationIds(x.locationIds)])
    + (if x.values == [] then [] else [Values(x.values)])
    + LabelEntries(x.labels)
  }

  function EncodeSample(x: Sample): seq<byte> { Concat(EncodeSampleField, SampleFields(x)) }

  function EncodeLocationField(f: LocationField): seq<byte> {
    match f
    case LocationId(id) => Tag(1, WIRE_VARINT) + Varint(id)
    case LocationLine(l) => LengthDelimited(4, EncodeScalars(LineFields(l)))
    case OtherLocation => []
  }

  function LineEntries(ls: seq<Line>): seq<LocationField> {
    seq(|ls|, i requires 0 <= i < |ls| => LocationLine(ls[i]))
  }

  function LocationFields(x: Location): seq<LocationField> {
    (if x.id == 0 then [] else [LocationId(x.id)])
    + LineEntries(x.lines)
  }

  function EncodeLocation(x: Location): seq<byte> { Concat(EncodeLocationField, LocationFields(x)) }

  function EncodeProfileField(f: ProfileField): seq<byte> {
    match f
    case SampleTypeEntry(vt) => LengthDelimited(1, EncodeScalars(ValueTypeFields(vt)))
    case SampleEntry(x) => LengthDelimited(2, EncodeSample(x))
    case LocationEntry(l) => LengthDelimited(4, EncodeLocation(l))
    case FunctionEntry(g) => LengthDelimited(5, EncodeScalars(FunctionFields(g)))
    case StringEntry(bs) => LengthDelimited(6, bs)
    case OtherEntry => []
  }

  function SampleTypeFields(xs: seq<ValueType>): seq<ProfileField> {
    seq(|xs|, i requires 0 <= i < |xs| => SampleTypeEntry(xs[i]))
  }
  function SamplesFields(xs: seq<Sample>): seq<ProfileField> {
    seq(|xs|, i requires 0 <= i < |xs| => SampleEntry(xs[i]))
  }
  function LocationsFields(m: Table<Location>): seq<ProfileField> {
    seq(|m|, i requires 0 <= i < |m| => LocationEntry(m[i].1))
  }
  function FunctionsFields(m: Table<Function>): seq<ProfileField> {
    seq(|m|, i requires 0 <= i < |m| => FunctionEntry(m[i].1))
  }
  function StringsFields(xs: seq<seq<byte>>): seq<ProfileField> {
    seq(|xs|, i requires 0 <= i < |xs| => StringEntry(xs[i]))
  }

  function ProfileFields(p: Profile): seq<ProfileField> {
    SampleTypeFields(p.sampleTypes) + SamplesFields(p.samples) + LocationsFields(p.locations)
    + FunctionsFields(p.functions) + StringsFields(p.stringTable)
  }

  /** `encodePprof` */
  function Encode(p: Profile): seq<byte> { Concat(EncodeProfileField, ProfileFields(p)) }

  // ---------------------------------------------------------------- what profiles are legal

  function FunctionIds(ls: seq<Line>): seq<nat> {
    seq(|ls|, i requires 0 <= i < |ls| => ls[i].functionId)
  }

  /** The function ids of a location are those of its lines, in order. */
  predicate ConsistentLocation(l: Location) { l.functionIds == FunctionIds(l.lines) }

  ghost predicate WellFormed(p: Profile) {
    && DistinctKeys(p.locations)
    && DistinctKeys(p.functions)
    && (forall i :: 0 <= i < |p.locations| ==> p.locations[i].0 == p.locations[i].1.id)
    && (forall i :: 0 <= i < |p.functions| ==> p.functions[i].0 == p.functions[i].1.id)
    && (forall i :: 0 <= i < |p.locations| ==> ConsistentLocation(p.locations[i].1))
  }

  predicate Safe(v: nat) { v < MAX_SAFE }
  predicate SafeLabel(l: Label) { Safe(l.keyIdx) && Safe(l.strIdx) && Safe(l.num) }
  predicate SafeLine(l: Line) { Safe(l.functionId) && Safe(l.line) }
  predicate SafeSample(x: Sample) {
    && (forall v :: v in x.locationIds ==> Safe(v))
    && (forall v :: v in x.values ==> Safe(v))
    && (forall l :: l in x.labels ==> SafeLabel(l))
  }
  predicate SafeLocation(x: Location) { Safe(x.id) && forall l :: l in x.lines ==> SafeLine(l) }
  predicate SafeFunction(g: Function) { Safe(g.id) && Safe(g.nameIdx) && Safe(g.filenameIdx) }
  predicate SafeValueType(vt: ValueType) { Safe(vt.typeIdx) && Safe(vt.unitIdx) }

  predicate SafeField(f: ProfileField) {
    match f
    case SampleTypeEntry(vt) => SafeValueType(vt)
    case SampleEntry(x) => SafeSample(x)
    case LocationEntry(l) => SafeLocation(l)
    case FunctionEntry(g) => SafeFunction(g)
    case StringEntry(_) => true
    case OtherEntry => false
  }

  /** Every number in the profile is exactly representable in JavaScript. */
  predicate SafeNumbers(p: Profile) {
    forall f :: f in ProfileFields(p) ==> SafeField(f)
  }
}
