/** The protobuf wire format as the pprof reader sees it.

    Every reading function takes the bytes that remain after the cursor and says what
    value is read and how far the cursor moves.  The distance may exceed the number of
    bytes that remain: skipping a field never checks the end of the buffer. */
module Wire {
  import opened Bytes

  const WIRE_VARINT: nat := 0
  const WIRE_FIXED64: nat := 1
  const WIRE_LENGTH_DELIMITED: nat := 2
  const WIRE_FIXED32: nat := 5

  /** The largest integer range in which JavaScript numbers are exact. */
  const MAX_SAFE: nat := 0x20_0000_0000_0000

  datatype Error = VarintEnd | VarintTooLong | BytesOutOfRange | UnsupportedWire(wire: nat)

  datatype Read<+T> = Ok(value: T, size: nat) | Err(error: Error)

  /** What is left of `s` once the cursor has moved `n` bytes; nothing when it overshot. */
  function Rest(s: seq<byte>, n: nat): seq<byte> {
    if n <= |s| then s[n..] else []
  }

  lemma RestRest(s: seq<byte>, a: nat, b: nat)
    ensures Rest(Rest(s, a), b) == Rest(s, a + b)
  {
  }

  // ---------------------------------------------------------------- varints

  /** Reads a varint whose byte number `i` (from 0) is the first byte of `s`. */
  function ReadVarintAt(s: seq<byte>, i: nat): (r: Read<nat>)
    requires i <= 9
    ensures r.Ok? ==> 1 <= r.size <= |s| && r.size <= 10 - i
    decreases |s|
  {
    if s == [] then Err(VarintEnd)
    else if s[0] < 128 then Ok(s[0], 1)
    else if i == 9 then Err(VarintTooLong)
    else match ReadVarintAt(s[1..], i + 1)
      case Ok(v, n) => Ok(s[0] - 128 + 128 * v, n + 1)
      case Err(e) => Err(e)
  }

  function ReadVarint(s: seq<byte>): (r: Read<nat>)
    ensures r.Ok? ==> 1 <= r.size <= |s| && r.size <= 10
  {
    ReadVarintAt(s, 0)
  }

  function Varint(v: nat): (bs: seq<byte>)
    ensures |bs| >= 1
  {
    if v < 128 then [v] else [128 + v % 128] + Varint(v / 128)
  }

  function Pow128(k: nat): (p: nat)
    ensures p >= 1
  {
    if k == 0 then 1 else 128 * Pow128(k - 1)
  }

  lemma {:induction false} Pow128Monotone(j: nat, k: nat)
    requires j <= k
    ensures Pow128(j) <= Pow128(k)
  {
    if j < k {
      Pow128Monotone(j, k - 1);
    }
  }

  lemma Pow128Values()
    ensures Pow128(8) == 0x100_0000_0000_0000
    ensures Pow128(10) == 0x40_0000_0000_0000_0000
  {
    assert Pow128(2) == 16384;
    assert Pow128(4) == 0x1000_0000;
    assert Pow128(6) == 0x400_0000_0000;
    assert Pow128(8) == 0x100_0000_0000_0000;
  }

  lemma {:induction false} VarintInvertsAt(v: nat, i: nat, t: seq<byte>)
    requires i <= 9 && v < Pow128(10 - i)
    ensures ReadVarintAt(Varint(v) + t, i) == Ok(v, |Varint(v)|)
    decreases v
  {
    var s := Varint(v) + t;
    if v >= 128 {
      assert Pow128(1) == 128;
      VarintInvertsAt(v / 128, i + 1, t);
      assert s[1..] == Varint(v / 128) + t;
    }
  }

  /** Reading back what was written gives the value and stops right after it,
      whatever follows. */
  lemma {:induction false} VarintInverts(v: nat, t: seq<byte>)
    requires v < MAX_SAFE
    ensures ReadVarint(Varint(v) + t) == Ok(v, |Varint(v)|)
  {
    Pow128Values();
    VarintInvertsAt(v, 0, t);
  }

  lemma {:induction false} VarintSize(v: nat, k: nat)
    requires k >= 1 && v < Pow128(k)
    ensures |Varint(v)| <= k
    decreases k
  {
    if v >= 128 {
      assert Pow128(1) == 128;
      VarintSize(v / 128, k - 1);
    }
  }

  lemma {:induction false} VarintMinimalAt(s: seq<byte>, i: nat, v: nat)
    requires i <= 9 && ReadVarintAt(s, i).Ok? && ReadVarintAt(s, i).value == v
    ensures |Varint(v)| <= ReadVarintAt(s, i).size
    decreases |s|
  {
    if s[0] >= 128 {
      var w := ReadVarintAt(s[1..], i + 1).value;
      VarintMinimalAt(s[1..], i + 1, w);
      if v >= 128 {
        assert v / 128 == w;
      }
    }
  }

  /** `writeVarint` emits one to eight bytes, and no byte string that reads as `v` is shorter. */
  lemma {:induction false} VarintMinimal(v: nat, s: seq<byte>)
    requires v < MAX_SAFE
    ensures 1 <= |Varint(v)| <= 8
    ensures ReadVarint(s).Ok? && ReadVarint(s).value == v ==> |Varint(v)| <= ReadVarint(s).size
  {
    Pow128Values();
    VarintSize(v, 8);
    if ReadVarint(s).Ok? && ReadVarint(s).value == v {
      VarintMinimalAt(s, 0, v);
    }
  }

  /** The number that the low seven bits of the bytes spell, least significant first. */
  function LowBits(bs: seq<byte>): nat {
    if bs == [] then 0 else bs[0] % 128 + 128 * LowBits(bs[1..])
  }

  /** The first `n` bytes all say that another follows. */
  ghost predicate Continues(s: seq<byte>, n: nat)
    requires n <= |s|
  {
    forall i :: 0 <= i < n ==> s[i] >= 128
  }

  /** `s` starts with a varint of `n` bytes, the last of which alone says that none follows. */
  ghost predicate StartsVarint(s: seq<byte>, n: nat, most: nat) {
    1 <= n <= |s| && n <= most && Continues(s, n - 1) && s[n - 1] < 128
  }

  lemma {:induction false} ReadVarintSays(s: seq<byte>, i: nat)
    requires i <= 9
    ensures match ReadVarintAt(s, i)
            case Ok(v, n) => StartsVarint(s, n, 10 - i) && v == LowBits(s[..n])
            case Err(e) =>
              || (e == VarintTooLong && |s| >= 10 - i && Continues(s, 10 - i))
              || (e == VarintEnd && |s| < 10 - i && Continues(s, |s|))
    decreases |s|
  {
    hide LowBits, StartsVarint, Continues;
    if s == [] || s[0] < 128 || i == 9 {
      VarintHead(s);
    } else {
      ReadVarintSays(s[1..], i + 1);
      VarintTail(s, i, if ReadVarintAt(s, i).Ok? then ReadVarintAt(s, i).size else 1);
    }
  }

  lemma VarintHead(s: seq<byte>)
    ensures s == [] ==> Continues(s, 0)
    ensures s != [] && s[0] < 128 ==> LowBits(s[..1]) == s[0] && forall m :: m >= 1 ==> StartsVarint(s, 1, m)
    ensures s != [] && s[0] >= 128 ==> Continues(s, 1)
  {
    if s != [] { assert s[..1] == [s[0]] && LowBits([s[0]][1..]) == 0; }
  }

  lemma VarintTail(s: seq<byte>, i: nat, n: nat)
    requires i < 9 && s != [] && s[0] >= 128
    ensures n >= 1 ==> (StartsVarint(s, n, 10 - i) <==> StartsVarint(s[1..], n - 1, 9 - i))
    ensures n >= 1 && n <= |s| ==> LowBits(s[..n]) == s[0] - 128 + 128 * LowBits(s[1..][..n - 1])
    ensures forall m :: 1 <= m <= |s| ==> (Continues(s, m) <==> Continues(s[1..], m - 1))
  {
    if 1 <= n <= |s| { assert s[..n][1..] == s[1..][..n - 1]; }
    forall m | 1 <= m <= |s|
      ensures Continues(s, m) <==> Continues(s[1..], m - 1)
    {
      if Continues(s, m) {
        forall k | 0 <= k < m - 1 ensures s[1..][k] >= 128 { assert s[k + 1] >= 128; }
      }
      if Continues(s[1..], m - 1) {
        forall k | 0 <= k < m ensures s[k] >= 128 { if k > 0 { assert s[1..][k - 1] >= 128; } }
      }
    }
  }

  /** What `readVarint` makes of any bytes: the number spelled up to the first byte below 128, if that is
      among the first ten; otherwise it is too long, or the buffer ends first. */
  lemma {:induction false} ReadVarintExactly(s: seq<byte>, v: nat, n: nat)
    ensures ReadVarint(s) == Ok(v, n) <==> StartsVarint(s, n, 10) && v == LowBits(s[..n])
    ensures ReadVarint(s) == Err(VarintTooLong) <==> |s| >= 10 && Continues(s, 10)
    ensures ReadVarint(s) == Err(VarintEnd) <==> |s| < 10 && Continues(s, |s|)
  {
    hide LowBits, ReadVarintAt;
    ReadVarintSays(s, 0);
  }

  // ---------------------------------------------------------------- tags and skipping

  /** `tag >>> 3`: JavaScript first truncates the number to 32 bits. */
  function FieldNum(tag: nat): nat { (tag % 0x1_0000_0000) / 8 }

  /** `tag & 7` */
  function WireType(tag: nat): nat { tag % 8 }

  function Tag(field: nat, wire: nat): (bs: seq<byte>)
    ensures |bs| >= 1
  {
    Varint(8 * field + wire)
  }

  lemma TagParts(field: nat, wire: nat)
    requires field < 0x2000_0000 && wire < 8
    ensures FieldNum(8 * field + wire) == field && WireType(8 * field + wire) == wire
  {
    var tag := 8 * field + wire;
    assert tag < 0x1_0000_0000;
    assert tag % 0x1_0000_0000 == tag;
  }

  /** A longer tag names the field that its low 32 bits name. */
  lemma {:induction false} LongTag(field: nat, wire: nat, high: nat)
    requires field < 0x2000_0000 && wire < 8
    ensures FieldNum(8 * field + wire + high * 0x1_0000_0000) == field
    ensures WireType(8 * field + wire + high * 0x1_0000_0000) == wire
  {
  }

  lemma TagInverts(field: nat, wire: nat, t: seq<byte>)
    requires field < 0x2000_0000 && wire < 8
    ensures ReadVarint(Tag(field, wire) + t) == Ok(8 * field + wire, |Tag(field, wire)|)
    ensures FieldNum(8 * field + wire) == field && WireType(8 * field + wire) == wire
  {
    hide Varint, ReadVarint, FieldNum, WireType;
    TagParts(field, wire);
    VarintInverts(8 * field + wire, t);
  }

  function SkipField(s: seq<byte>, wire: nat): Read<()> {
    if wire == WIRE_VARINT then
      match ReadVarint(s) { case Ok(_, n) => Ok((), n) case Err(e) => Err(e) }
    else if wire == WIRE_FIXED64 then Ok((), 8)
    else if wire == WIRE_LENGTH_DELIMITED then
      match ReadVarint(s) { case Ok(len, n) => Ok((), n + len) case Err(e) => Err(e) }
    else if wire == WIRE_FIXED32 then Ok((), 4)
    else Err(UnsupportedWire(wire))
  }

  // ---------------------------------------------------------------- the message loop

  function Prepend<F>(fs: seq<F>, k: nat, r: Read<seq<F>>): Read<seq<F>> {
    match r
    case Ok(gs, n) => Ok(fs + gs, k + n)
    case Err(e) => Err(e)
  }

  ghost predicate Progress<F>(read: seq<byte> -> Read<F>) {
    forall s :: read(s).Ok? ==> read(s).size >= 1
  }

  /** If `s` can be read, then what follows it is of no consequence. */
  ghost predicate Ignores<F>(read: seq<byte> -> Read<F>, s: seq<byte>, u: seq<byte>) {
    read(s).Ok? ==> read(s + u) == read(s)
  }

  /** A successful read does not depend on what follows the buffer. */
  ghost predicate Local<F>(read: seq<byte> -> Read<F>) {
    forall s, u :: Ignores(read, s, u)
  }

  /** The loop all decoders share: while the cursor is before the end, read one more field.
      Nothing stops the last field from running past the end. */
  function Fields<F>(read: seq<byte> -> Read<F>, s: seq<byte>, len: int): (r: Read<seq<F>>)
    requires Progress(read)
    ensures r.Ok? ==> r.size >= len && r.size >= |r.value|
    decreases if len < 0 then 0 else len
  {
    if len <= 0 then Ok([], 0)
    else match read(s)
      case Err(e) => Err(e)
      case Ok(f, k) => Prepend([f], k, Fields(read, Rest(s, k), len - k))
  }

  /** A length prefix and then the fields of a nested message. */
  function Nested<F>(read: seq<byte> -> Read<F>, s: seq<byte>): (r: Read<seq<F>>)
    requires Progress(read)
    ensures r.Ok? ==> r.size >= 1 && r.size >= |r.value|
  {
    match ReadVarint(s)
    case Err(e) => Err(e)
    case Ok(len, k) => Advance(k, Fields(read, Rest(s, k), len))
  }

  function Advance<F>(k: nat, r: Read<F>): Read<F> {
    match r
    case Ok(f, n) => Ok(f, k + n)
    case Err(e) => Err(e)
  }

  /** A tag, and then whatever `body` makes of its field number, its wire type and the bytes after it. */
  function Tagged<F>(body: (nat, nat, seq<byte>) -> Read<F>, s: seq<byte>): (r: Read<F>)
    ensures r.Ok? ==> r.size >= 1
  {
    match ReadVarint(s)
    case Err(e) => Err(e)
    case Ok(tag, k) => Advance(k, body(FieldNum(tag), WireType(tag), Rest(s, k)))
  }

  lemma {:induction false} VarintLocalAt(s: seq<byte>, t: seq<byte>, i: nat)
    requires i <= 9 && s <= t && ReadVarintAt(s, i).Ok?
    ensures ReadVarintAt(t, i) == ReadVarintAt(s, i)
    decreases |s|
  {
    if s[0] >= 128 {
      VarintLocalAt(s[1..], t[1..], i + 1);
    }
  }

  lemma VarintLocal()
    ensures Local(ReadVarint) && Progress(ReadVarint)
  {
    forall s, u
      ensures Ignores(ReadVarint, s, u)
    {
      if ReadVarint(s).Ok? { VarintLocalAt(s, s + u, 0); }
    }
  }

  lemma LocalRead<F>(read: seq<byte> -> Read<F>, s: seq<byte>, t: seq<byte>)
    requires Local(read) && s <= t && read(s).Ok?
    ensures read(t) == read(s)
  {
    assert s + t[|s|..] == t;
    assert Ignores(read, s, t[|s|..]);
  }

  lemma SkipLocal(s: seq<byte>, t: seq<byte>, wire: nat)
    requires s <= t && SkipField(s, wire).Ok?
    ensures SkipField(t, wire) == SkipField(s, wire)
  {
    VarintLocal();
    if ReadVarint(s).Ok? {
      LocalRead(ReadVarint, s, t);
    }
  }

  ghost predicate BodyIgnores<F>(body: (nat, nat, seq<byte>) -> Read<F>, field: nat, wire: nat,
                                 s: seq<byte>, u: seq<byte>) {
    body(field, wire, s).Ok? ==> body(field, wire, s + u) == body(field, wire, s)
  }

  ghost predicate LocalBody<F>(body: (nat, nat, seq<byte>) -> Read<F>) {
    forall field, wire, s, u :: BodyIgnores(body, field, wire, s, u)
  }

  lemma TaggedLocal<F>(body: (nat, nat, seq<byte>) -> Read<F>, read: seq<byte> -> Read<F>)
    requires LocalBody(body) && forall s :: read(s) == Tagged(body, s)
    ensures Local(read)
  {
    forall s, u
      ensures Ignores(read, s, u)
    {
      if ReadVarint(s).Ok? {
        var Ok(tag, k) := ReadVarint(s);
        VarintLocalAt(s, s + u, 0);
        assert Rest(s + u, k) == Rest(s, k) + u;
        assert BodyIgnores(body, FieldNum(tag), WireType(tag), Rest(s, k), u);
      }
    }
  }

  lemma {:induction false} FieldsLocal<F>(read: seq<byte> -> Read<F>, s: seq<byte>, t: seq<byte>, len: int)
    requires Progress(read) && Local(read) && s <= t && Fields(read, s, len).Ok?
    ensures Fields(read, t, len) == Fields(read, s, len)
    decreases if len < 0 then 0 else len
  {
    if len > 0 {
      LocalRead(read, s, t);
      var k := read(s).size;
      FieldsLocal(read, Rest(s, k), Rest(t, k), len - k);
    }
  }

  lemma NestedLocal<F>(read: seq<byte> -> Read<F>, s: seq<byte>, t: seq<byte>)
    requires Progress(read) && Local(read) && s <= t && Nested(read, s).Ok?
    ensures Nested(read, t) == Nested(read, s)
  {
    VarintLocal();
    LocalRead(ReadVarint, s, t);
    var Ok(len, k) := ReadVarint(s);
    FieldsLocal(read, Rest(s, k), Rest(t, k), len);
  }

  lemma PrependNothing<F>(r: Read<seq<F>>)
    ensures Prepend([], 0, r) == r
  {
    assert r.Ok? ==> [] + r.value == r.value;
  }

  lemma PrependTwice<F>(fs: seq<F>, j: nat, gs: seq<F>, k: nat, r: Read<seq<F>>)
    ensures Prepend(fs, j, Prepend(gs, k, r)) == Prepend(fs + gs, j + k, r)
  {
    assert r.Ok? ==> fs + (gs + r.value) == (fs + gs) + r.value;
  }

  lemma FieldsStep<F>(read: seq<byte> -> Read<F>, s: seq<byte>, len: int)
    requires Progress(read) && len > 0
    ensures match read(s)
            case Err(e) => Fields(read, s, len) == Err(e)
            case Ok(f, k) => k >= 1 && Fields(read, s, len) == Prepend([f], k, Fields(read, Rest(s, k), len - k))
  {
  }

  /** Where a run of the loop stops, a longer run of the same loop passes through. */
  lemma {:induction false} FieldsSplit<F>(read: seq<byte> -> Read<F>, s: seq<byte>, len: int, t: seq<byte>,
                                          fs: seq<F>, n: nat, more: nat)
    requires Progress(read) && Local(read) && s <= t
    requires Fields(read, s, len) == Ok(fs, n)
    ensures Fields(read, t, n + more) == Prepend(fs, n, Fields(read, Rest(t, n), more))
    decreases if len < 0 then 0 else len
  {
    if len <= 0 {
      PrependNothing(Fields(read, Rest(t, n), more));
    } else {
      FieldsSplitStep(read, s, len, t, fs, n, more);
    }
  }

  lemma {:induction false} FieldsSplitStep<F>(read: seq<byte> -> Read<F>, s: seq<byte>, len: int, t: seq<byte>,
                                              fs: seq<F>, n: nat, more: nat)
    requires Progress(read) && Local(read) && s <= t && len > 0
    requires Fields(read, s, len) == Ok(fs, n)
    ensures Fields(read, t, n + more) == Prepend(fs, n, Fields(read, Rest(t, n), more))
    decreases if len < 0 then 0 else len, 0
  {
    hide Local, Progress, Fields;
    FieldsStep(read, s, len);
    var Ok(f, k) := read(s);
    LocalRead(read, s, t);
    var gs := Fields(read, Rest(s, k), len - k).value;
    FieldsStep(read, t, n + more);
    FieldsSplit(read, Rest(s, k), len - k, Rest(t, k), gs, n - k, more);
    RestRest(t, k, n - k);
    PrependTwice([f], k, gs, n - k, Fields(read, Rest(t, n), more));
  }

  lemma FieldsAppend<F>(read: seq<byte> -> Read<F>, a: seq<byte>, b: seq<byte>, fs: seq<F>)
    requires Progress(read) && Local(read) && Fields(read, a, |a|) == Ok(fs, |a|)
    ensures Fields(read, a + b, |a + b|) == Prepend(fs, |a|, Fields(read, b, |b|))
  {
    FieldsSplit(read, a, |a|, a + b, fs, |a|, |b|);
    assert Rest(a + b, |a|) == b;
  }

  lemma PrependToNothing<F>(fs: seq<F>, n: nat)
    ensures Prepend(fs, n, Ok([], 0)) == Ok(fs, n)
  {
    assert fs + [] == fs;
  }

  /** A run that overshot its end is the same run with the end moved to where it stopped. */
  lemma {:induction false} FieldsSwallow<F>(read: seq<byte> -> Read<F>, s: seq<byte>, len: int, t: seq<byte>,
                                            fs: seq<F>, n: nat)
    requires Progress(read) && Local(read) && s <= t && Fields(read, s, len) == Ok(fs, n)
    ensures Fields(read, t, n) == Ok(fs, n)
    decreases if len < 0 then 0 else len
  {
    if len > 0 {
      LocalRead(read, s, t);
      var k := read(s).size;
      FieldsSwallow(read, Rest(s, k), len - k, Rest(t, k), Fields(read, Rest(s, k), len - k).value, n - k);
    }
  }

  lemma OneField<F>(read: seq<byte> -> Read<F>, u: seq<byte>, f: F)
    requires Progress(read) && read(u) == Ok(f, |u|)
    ensures Fields(read, u, |u|) == Ok([f], |u|)
  {
    assert read(u).size >= 1;
    PrependToNothing([f], |u|);
  }

  // ---------------------------------------------------------------- writing

  function Concat<F>(enc: F -> seq<byte>, fs: seq<F>): seq<byte> {
    if fs == [] then [] else enc(fs[0]) + Concat(enc, fs[1..])
  }

  function LengthDelimited(field: nat, payload: seq<byte>): seq<byte> {
    Tag(field, WIRE_LENGTH_DELIMITED) + Varint(|payload|) + payload
  }

  /** `read` recovers `f` from `enc(f)`, takes exactly its bytes, and ignores what follows. */
  ghost predicate Inverts<F>(read: seq<byte> -> Read<F>, enc: F -> seq<byte>, f: F) {
    forall t: seq<byte> :: read(enc(f) + t) == Ok(f, |enc(f)|)
  }

  lemma {:induction false} FieldsInvert<F>(read: seq<byte> -> Read<F>, enc: F -> seq<byte>, fs: seq<F>, t: seq<byte>)
    requires Progress(read)
    requires forall f :: f in fs ==> Inverts(read, enc, f)
    ensures Fields(read, Concat(enc, fs) + t, |Concat(enc, fs)|) == Ok(fs, |Concat(enc, fs)|)
    decreases |fs|
  {
    if fs != [] {
      var b, bs := enc(fs[0]), Concat(enc, fs[1..]);
      assert Inverts(read, enc, fs[0]);
      assert (b + bs) + t == b + (bs + t);
      assert read(b + (bs + t)) == Ok(fs[0], |b|);
      assert Rest((b + bs) + t, |b|) == bs + t;
      FieldsInvert(read, enc, fs[1..], t);
      assert [fs[0]] + fs[1..] == fs;
    }
  }

  lemma TaggedInverts<F>(body: (nat, nat, seq<byte>) -> Read<F>, field: nat, wire: nat, rest: seq<byte>)
    requires field < 0x2000_0000 && wire < 8
    ensures Tagged(body, Tag(field, wire) + rest) == Advance(|Tag(field, wire)|, body(field, wire, rest))
  {
    TagInverts(field, wire, rest);
    assert Rest(Tag(field, wire) + rest, |Tag(field, wire)|) == rest;
  }

  lemma NestedInverts<F>(read: seq<byte> -> Read<F>, enc: F -> seq<byte>, fs: seq<F>, t: seq<byte>)
    requires Progress(read)
    requires forall f :: f in fs ==> Inverts(read, enc, f)
    requires |Concat(enc, fs)| < MAX_SAFE
    ensures var bs := Concat(enc, fs);
            Nested(read, Varint(|bs|) + bs + t) == Ok(fs, |Varint(|bs|) + bs|)
  {
    hide Fields, Concat, Varint, ReadVarint, Inverts;
    var bs := Concat(enc, fs);
    var h := Varint(|bs|);
    assert h + bs + t == h + (bs + t);
    VarintInverts(|bs|, bs + t);
    assert Rest(h + (bs + t), |h|) == bs + t;
    FieldsInvert(read, enc, fs, t);
  }

  lemma {:induction false} ConcatAppend<F>(enc: F -> seq<byte>, fs: seq<F>, gs: seq<F>)
    ensures Concat(enc, fs + gs) == Concat(enc, fs) + Concat(enc, gs)
    decreases |fs|
  {
    if fs == [] {
      assert fs + gs == gs;
    } else {
      ConcatAppend(enc, fs[1..], gs);
      assert (fs + gs)[1..] == fs[1..] + gs;
    }
  }
}
