/** Sortable ids: the server's 128-bit encoder and the browser's base-32 loop. */
module ActionId {
  import opened Options
  import opened Bytes

  const ALPHABET: string := "0123456789ABCDEFGHJKMNPQRSTVWXYZ"

  const MAX_TIME: nat := 0xffff_ffff_ffff

  // ---------------------------------------------------------------- the id format

  /** One character of `ACTION_ID_RE`. */
  predicate ActionIdChar(c: char) {
    || '0' <= c <= '9'
    || 'A' <= c <= 'H'
    || c in {'J', 'K', 'M', 'N'}
    || 'P' <= c <= 'T'
    || 'V' <= c <= 'Z'
  }

  /** One character of `INTERACTION_ID_RE`. */
  predicate InteractionIdChar(c: char) {
    || '0' <= c <= '9'
    || 'A' <= c <= 'H'
    || c in {'J', 'K', 'M', 'N', 'P', 'Q', 'R', 'S', 'T', 'V', 'W', 'X', 'Y', 'Z'}
  }

  predicate ValidActionId(s: string) { |s| == 26 && forall i :: 0 <= i < 26 ==> ActionIdChar(s[i]) }

  predicate ValidInteractionId(s: string) { |s| == 26 && forall i :: 0 <= i < 26 ==> InteractionIdChar(s[i]) }

  /** Both patterns accept exactly the strings of 26 characters of the alphabet. */
  lemma {:induction false} FormatsAgree(s: string)
    ensures ValidActionId(s) <==> ValidInteractionId(s)
    ensures ValidActionId(s) <==> |s| == 26 && forall i :: 0 <= i < 26 ==> s[i] in ALPHABET
  {
    forall c
      ensures ActionIdChar(c) <==> InteractionIdChar(c)
      ensures ActionIdChar(c) <==> c in ALPHABET
    {
      CharIsDigit(c);
    }
  }

  lemma AlphabetSize()
    ensures |ALPHABET| == 32
  {
  }

  lemma CharIsDigit(c: char)
    ensures ActionIdChar(c) <==> InteractionIdChar(c)
    ensures ActionIdChar(c) <==> c in ALPHABET
  {
    hide ALPHABET;
    AlphabetSize();
    if c in ALPHABET {
      var i :| 0 <= i < 32 && ALPHABET[i] == c;
      AlphabetCode(i);
    }
    if ActionIdChar(c) {
      var n := c as int;
      var i := if n <= 57 then n - 48 else if n <= 72 then n - 55 else if n <= 75 then n - 56
               else if n <= 78 then n - 57 else if n <= 84 then n - 58 else n - 59;
      AlphabetCode(i);
      assert ALPHABET[i] == c;
    }
  }

  // ---------------------------------------------------------------- base 32

  function Pow(base: nat, k: nat): (p: nat)
    ensures base > 0 ==> p > 0
  {
    if k == 0 then 1 else Pow(base, k - 1) * base
  }

  /** The last `len` base-32 digits of `n`, most significant first. */
  function Base32(n: nat, len: nat): (s: string)
    ensures |s| == len
    decreases len
  {
    if len == 0 then "" else Base32(n / 32, len - 1) + [ALPHABET[n % 32]]
  }

  lemma Fundamental(a: nat, d: nat)
    requires d > 0
    ensures a == d * (a / d) + a % d && 0 <= a % d < d
  {
  }

  lemma Distribute(b: int, x: int, y: int)
    ensures b * (x + y) == b * x + b * y
  {
  }

  lemma Associate(b: int, c: int, u: int)
    ensures b * (c * u) == (b * c) * u
  {
  }

  lemma MulMonotone(b: nat, x: int, y: int)
    requires x <= y
    ensures b * x <= b * y
  {
  }

  lemma DivIs(a: nat, d: nat, q: nat, r: nat)
    requires d > 0 && a == d * q + r && r < d
    ensures a / d == q && a % d == r
  {
    var p := a / d;
    Fundamental(a, d);
    if p < q {
      MulMonotone(d, p + 1, q);
      Distribute(d, p, 1);
      assert false;
    }
    if p > q {
      MulMonotone(d, q + 1, p);
      Distribute(d, q, 1);
      assert false;
    }
  }

  lemma ProductPositive(b: nat, c: nat)
    requires b > 0 && c > 0
    ensures b * c > 0
  {
  }

  lemma DivDiv(a: nat, b: nat, c: nat)
    requires b > 0 && c > 0
    ensures b * c > 0 && (a / b) / c == a / (b * c)
  {
    var q := a / b;
    var u, v := q / c, q % c;
    ProductPositive(b, c);
    Fundamental(a, b);
    Fundamental(q, c);
    Distribute(b, c * u, v);
    Associate(b, c, u);
    MulMonotone(b, v, c - 1);
    Distribute(b, c, -1);
    MulMonotone(b, 0, v);
    DivIs(a, b * c, u, b * v + a % b);
  }

  lemma {:induction false} PowAdd(base: nat, j: nat, k: nat)
    ensures Pow(base, j + k) == Pow(base, j) * Pow(base, k)
    decreases k
  {
    if k > 0 {
      PowAdd(base, j, k - 1);
      Associate(Pow(base, j), Pow(base, k - 1), base);
    }
  }

  /** `n` without its last `k` digits. */
  function Shifted(n: nat, base: nat, k: nat): nat
    requires base > 0
  {
    n / Pow(base, k)
  }

  lemma ShiftedMore(n: nat, base: nat, k: nat)
    requires base > 0
    ensures Shifted(n, base, 0) == n
    ensures Shifted(n, base, k + 1) == Shifted(n, base, k) / base
    ensures Shifted(n, base, k + 1) == Shifted(n / base, base, k)
  {
    DivDiv(n, Pow(base, k), base);
    DivDiv(n, base, Pow(base, k));
    Commute(base, Pow(base, k));
  }

  lemma Commute(b: int, c: int)
    ensures b * c == c * b
  {
  }

  /** The leading digits of a number are the digits of its leading part. */
  lemma {:induction false} Base32Split(n: nat, a: nat, b: nat)
    ensures Base32(n, a + b) == Base32(Shifted(n, 32, b), a) + Base32(n, b)
    decreases b
  {
    hide Shifted, ALPHABET;
    if b == 0 {
      ShiftedMore(n, 32, 0);
    } else {
      Base32Split(n / 32, a, b - 1);
      ShiftedMore(n, 32, b - 1);
    }
  }

  // ---------------------------------------------------------------- order

  /** JavaScript's `<` on strings of the same length: the first difference decides. */
  ghost predicate FirstDifference(s: string, t: string, k: int) {
    0 <= k < |s| && k < |t| && s[..k] == t[..k] && s[k] < t[k]
  }

  ghost predicate Less(s: string, t: string) { exists k :: FirstDifference(s, t, k) }

  lemma LessExtends(s: string, t: string, x: string, y: string)
    requires Less(s, t)
    ensures Less(s + x, t + y)
  {
    var k :| FirstDifference(s, t, k);
    assert (s + x)[..k] == s[..k] && (t + y)[..k] == t[..k];
    assert FirstDifference(s + x, t + y, k);
  }

  lemma AlphabetAscends(i: nat, j: nat)
    requires i < j < 32
    ensures ALPHABET[i] < ALPHABET[j]
  {
    AlphabetCode(i);
    AlphabetCode(j);
  }

  lemma AlphabetCode(i: nat)
    requires i < 32
    ensures ALPHABET[i] as int == if i < 10 then 48 + i else if i < 18 then 55 + i else if i < 20 then 56 + i
                                  else if i < 22 then 57 + i else if i < 27 then 58 + i else 59 + i
  {
  }

  lemma {:induction false} Base32Increases(n: nat, m: nat, len: nat)
    requires n < m < Pow(32, len)
    ensures Less(Base32(n, len), Base32(m, len))
    decreases len
  {
    var s, t := Base32(n / 32, len - 1), Base32(m / 32, len - 1);
    var c, d := ALPHABET[n % 32], ALPHABET[m % 32];
    if n / 32 < m / 32 {
      assert m / 32 < Pow(32, len - 1);
      Base32Increases(n / 32, m / 32, len - 1);
      LessExtends(s, t, [c], [d]);
    } else {
      assert n / 32 == m / 32 && n % 32 < m % 32;
      AlphabetAscends(n % 32, m % 32);
      assert (s + [c])[..len - 1] == s && (t + [d])[..len - 1] == t;
      assert FirstDifference(s + [c], t + [d], len - 1);
    }
  }

  lemma LessIrreflexive(s: string)
    ensures !Less(s, s)
  {
  }

  lemma Base32Injective(n: nat, m: nat, len: nat)
    requires n < Pow(32, len) && m < Pow(32, len) && Base32(n, len) == Base32(m, len)
    ensures n == m
  {
    LessIrreflexive(Base32(n, len));
    if n < m { Base32Increases(n, m, len); }
    if m < n { Base32Increases(m, n, len); }
  }

  // ---------------------------------------------------------------- the server's id

  /** The big-endian number that `bytes` spells. */
  function BigEndian(bytes: seq<byte>): (v: nat) {
    if bytes == [] then 0 else BigEndian(bytes[..|bytes| - 1]) * 256 + bytes[|bytes| - 1]
  }

  lemma {:induction false} BigEndianAppend(a: seq<byte>, b: seq<byte>)
    ensures BigEndian(a + b) == BigEndian(a) * Pow(256, |b|) + BigEndian(b)
    ensures BigEndian(b) < Pow(256, |b|)
    decreases |b|
  {
    if b == [] {
      assert a + b == a;
      assert BigEndian(a) * 1 == BigEndian(a);
    } else {
      var front, last := b[..|b| - 1], b[|b| - 1];
      BigEndianAppend(a, front);
      assert (a + b)[..|a + b| - 1] == a + front;
      Associate(BigEndian(a), Pow(256, |front|), 256);
    }
  }

  function Clamp(now: int): nat { if now < 0 then 0 else if now > MAX_TIME then MAX_TIME else now }

  /** 48 bits of time and 80 random bits, as 26 base-32 digits. */
  function ActionIdOf(now: int, random: seq<byte>): string
    requires |random| == 10
  {
    Base32(Clamp(now) * Pow(256, 10) + BigEndian(random), 26)
  }

  lemma Sizes()
    ensures Pow(256, 10) == Pow(32, 16) == 0x1_0000_0000_0000_0000_0000
    ensures Pow(256, 6) == 0x1_0000_0000_0000
    ensures Pow(32, 10) == 0x4_0000_0000_0000
  {
    assert Pow(32, 2) == 1024 && Pow(32, 4) == 1048576;
    assert Pow(32, 6) == 0x4000_0000 && Pow(32, 8) == 0x100_0000_0000;
    assert Pow(32, 12) == 0x1000_0000_0000_0000 by { PowAdd(32, 6, 6); }
    assert Pow(32, 16) == 0x1_0000_0000_0000_0000_0000 by { PowAdd(32, 12, 4); }
    assert Pow(256, 2) == 0x1_0000 && Pow(256, 4) == 0x1_0000_0000;
    assert Pow(256, 8) == 0x1_0000_0000_0000_0000 by { PowAdd(256, 4, 4); }
  }

  /** The first ten characters are the clamped time, whatever the random bytes. */
  lemma {:induction false} TimePrefix(now: int, random: seq<byte>)
    requires |random| == 10
    ensures |ActionIdOf(now, random)| == 26
    ensures ActionIdOf(now, random)[..10] == Base32(Clamp(now), 10)
  {
    Sizes();
    BigEndianAppend([], random);
    var v := Clamp(now) * Pow(256, 10) + BigEndian(random);
    DivIs(v, Pow(32, 16), Clamp(now), BigEndian(random));
    Base32Split(v, 10, 16);
  }

  /** The result always has the required format, so the final check never throws. */
  lemma {:induction false} Base32Valid(n: nat, len: nat)
    ensures forall i :: 0 <= i < len ==> Base32(n, len)[i] in ALPHABET
    decreases len
  {
    if len > 0 { Base32Valid(n / 32, len - 1); }
  }

  lemma {:induction false} ActionIdValid(now: int, random: seq<byte>)
    requires |random| == 10
    ensures ValidActionId(ActionIdOf(now, random)) && ValidInteractionId(ActionIdOf(now, random))
  {
    hide Base32, Pow, BigEndian;
    Base32Valid(Clamp(now) * Pow(256, 10) + BigEndian(random), 26);
    FormatsAgree(ActionIdOf(now, random));
  }

  /** The browser's id: ten digits of time, and one for each random byte. */
  function InteractionIdOf(now: nat, random: seq<byte>): string {
    Base32(now, 10) + seq(|random|, i requires 0 <= i < |random| => ALPHABET[random[i] % 32])
  }

  /** The id starts with the digits of `t`. */
  ghost predicate Stamped(id: string, t: nat) { |id| >= 10 && id[..10] == Base32(t, 10) }

  lemma {:induction false} StampedSort(a: string, t1: nat, b: string, t2: nat)
    requires t1 < t2 < 0x4_0000_0000_0000 && Stamped(a, t1) && Stamped(b, t2)
    ensures Less(a, b)
  {
    hide Base32, Pow, Less;
    Sizes();
    Base32Increases(t1, t2, 10);
    LessExtends(a[..10], b[..10], a[10..], b[10..]);
    assert a[..10] + a[10..] == a && b[..10] + b[10..] == b;
  }

  lemma InteractionStamped(now: nat, random: seq<byte>)
    ensures Stamped(InteractionIdOf(now, random), now)
  {
    hide Base32;
    assert InteractionIdOf(now, random)[..10] == Base32(now, 10);
  }

  /** The server's ids sort by creation time, and the browser's, and each among the other's, whatever
      the random bytes. */
  lemma {:induction false} SortsByTime(t1: nat, t2: nat, r1: seq<byte>, r2: seq<byte>, q1: seq<byte>, q2: seq<byte>)
    requires t1 < t2 <= MAX_TIME && |r1| == |r2| == 10
    ensures Less(ActionIdOf(t1, r1), ActionIdOf(t2, r2))
    ensures Less(ActionIdOf(t1, r1), InteractionIdOf(t2, q2))
    ensures Less(InteractionIdOf(t1, q1), ActionIdOf(t2, r2))
    ensures Less(InteractionIdOf(t1, q1), InteractionIdOf(t2, q2))
  {
    hide Base32, Pow, BigEndian, ActionIdOf, InteractionIdOf, Less;
    TimePrefix(t1, r1);
    TimePrefix(t2, r2);
    InteractionStamped(t1, q1);
    InteractionStamped(t2, q2);
    var a, b, x, y := ActionIdOf(t1, r1), ActionIdOf(t2, r2), InteractionIdOf(t1, q1), InteractionIdOf(t2, q2);
    StampedSort(a, t1, b, t2);
    StampedSort(a, t1, y, t2);
    StampedSort(x, t1, b, t2);
    StampedSort(x, t1, y, t2);
  }

  /** The browser's time digits and the server's agree exactly when the time fits in 48 bits,
      or wraps in 50 bits to the value the server clamps to. */
  lemma {:induction false} PrefixesAgreeExactly(t: nat, random: seq<byte>)
    requires |random| == 10
    ensures ActionIdOf(t, random)[..10] == Base32(t, 10) <==>
            t <= MAX_TIME || t % 0x4_0000_0000_0000 == MAX_TIME
  {
    Sizes();
    TimePrefix(t, random);
    Base32Wraps(t, 10);
    if Base32(Clamp(t), 10) == Base32(t, 10) {
      Base32Injective(Clamp(t), t % Pow(32, 10), 10);
    }
  }

  /** Cutting a number at `32 * p` cuts its quotient by 32 at `p` and keeps its last digit. */
  lemma {:induction false} CutShift(n: nat, p: nat)
    requires p > 0
    ensures (n % (p * 32)) / 32 == (n / 32) % p && (n % (p * 32)) % 32 == n % 32
  {
    var m, q, r := n / 32, (n / 32) / p, (n / 32) % p;
    Fundamental(n, 32);
    Fundamental(m, p);
    Associate(32, p, q);
    assert n == (p * 32) * q + (32 * r + n % 32);
    DivIs(n, p * 32, q, 32 * r + n % 32);
    DivIs(32 * r + n % 32, 32, r, n % 32);
  }

  lemma {:induction false} Base32Wraps(n: nat, len: nat)
    ensures Base32(n, len) == Base32(n % Pow(32, len), len)
    decreases len
  {
    if len > 0 {
      CutShift(n, Pow(32, len - 1));
      Base32Wraps(n / 32, len - 1);
    }
  }

  // ---------------------------------------------------------------- when two ids are the same

  /** The last sixteen characters spell the random bytes, and nothing else. */
  lemma {:induction false} RandomSuffix(now: int, random: seq<byte>)
    requires |random| == 10
    ensures |ActionIdOf(now, random)| == 26
    ensures ActionIdOf(now, random)[10..] == Base32(BigEndian(random), 16)
  {
    hide Base32, Pow, BigEndian;
    Sizes();
    BigEndianAppend([], random);
    assert [] + random == random;
    var v := Clamp(now) * Pow(256, 10) + BigEndian(random);
    DivIs(v, Pow(32, 16), Clamp(now), BigEndian(random));
    Base32Split(v, 10, 16);
    Base32Wraps(v, 16);
  }

  lemma {:induction false} BigEndianInjective(a: seq<byte>, b: seq<byte>)
    requires |a| == |b| && BigEndian(a) == BigEndian(b)
    ensures a == b
    decreases |a|
  {
    if a != [] {
      BigEndianInjective(a[..|a| - 1], b[..|b| - 1]);
      assert a == a[..|a| - 1] + [a[|a| - 1]] && b == b[..|b| - 1] + [b[|b| - 1]];
    }
  }

  /** Two of the server's ids are the same exactly if their times, clamped to 48 bits, and all their
      random bytes are. */
  lemma {:induction false} ActionIdsDiffer(t1: int, t2: int, r1: seq<byte>, r2: seq<byte>)
    requires |r1| == |r2| == 10
    ensures ActionIdOf(t1, r1) == ActionIdOf(t2, r2) <==> Clamp(t1) == Clamp(t2) && r1 == r2
    ensures 0 <= t1 < 0x1_0000_0000_0000 && 0 <= t2 < 0x1_0000_0000_0000 ==>
              (ActionIdOf(t1, r1) == ActionIdOf(t2, r2) <==> t1 == t2 && r1 == r2)
  {
    hide Base32, Pow, BigEndian, ActionIdOf;
    if ActionIdOf(t1, r1) == ActionIdOf(t2, r2) {
      Sizes();
      TimePrefix(t1, r1);
      TimePrefix(t2, r2);
      Base32Injective(Clamp(t1), Clamp(t2), 10);
      RandomSuffix(t1, r1);
      RandomSuffix(t2, r2);
      BigEndianAppend([], r1);
      BigEndianAppend([], r2);
      assert [] + r1 == r1 && [] + r2 == r2;
      Base32Injective(BigEndian(r1), BigEndian(r2), 16);
      BigEndianInjective(r1, r2);
    }
    if Clamp(t1) == Clamp(t2) && r1 == r2 { SameInputs(t1, t2, r1, r2); }
  }

  lemma SameInputs(t1: int, t2: int, r1: seq<byte>, r2: seq<byte>)
    requires |r1| == |r2| == 10 && Clamp(t1) == Clamp(t2) && r1 == r2
    ensures ActionIdOf(t1, r1) == ActionIdOf(t2, r2)
  {
    hide Base32, Pow, BigEndian, Clamp;
  }

  /** Two of the browser's ids are the same exactly if their times agree in the last 50 bits and their
      random bytes in the last five. */
  lemma {:induction false} InteractionIdsDiffer(t1: nat, t2: nat, q1: seq<byte>, q2: seq<byte>)
    requires |q1| == |q2|
    ensures InteractionIdOf(t1, q1) == InteractionIdOf(t2, q2) <==>
            && t1 % 0x4_0000_0000_0000 == t2 % 0x4_0000_0000_0000
            && forall i :: 0 <= i < |q1| ==> q1[i] % 32 == q2[i] % 32
  {
    hide Base32, Pow;
    Sizes();
    Base32Wraps(t1, 10);
    Base32Wraps(t2, 10);
    var a, b := InteractionIdOf(t1, q1), InteractionIdOf(t2, q2);
    assert a[..10] == Base32(t1, 10) && b[..10] == Base32(t2, 10);
    if a == b {
      Base32Injective(t1 % Pow(32, 10), t2 % Pow(32, 10), 10);
      forall i | 0 <= i < |q1|
        ensures q1[i] % 32 == q2[i] % 32
      {
        assert a[10 + i] == ALPHABET[q1[i] % 32] && b[10 + i] == ALPHABET[q2[i] % 32];
        AlphabetInjective(q1[i] % 32, q2[i] % 32);
      }
    }
  }

  lemma AlphabetInjective(i: nat, j: nat)
    requires i < 32 && j < 32 && ALPHABET[i] == ALPHABET[j]
    ensures i == j
  {
    if i < j { AlphabetAscends(i, j); }
    if j < i { AlphabetAscends(j, i); }
  }

  // ---------------------------------------------------------------- the loops

  method EncodeTime(millis: nat, len: nat) returns (str: string)
    ensures str == Base32(millis, len)
  {
    str := "";
    var n := millis;
    for i := 0 to len
      invariant Base32(millis, len) == Base32(n, len - i) + str
    {
      str := [ALPHABET[n % 32]] + str;
      n := n / 32;
    }
  }

  method GenerateInteractionId(now: nat, random: seq<byte>) returns (id: string)
    requires |random| == 16
    ensures ValidInteractionId(id) && id == InteractionIdOf(now, random)
  {
    hide Base32;
    var time := EncodeTime(now, 10);
    var digits := EncodeRandom(random);
    id := time + digits;
    Base32Valid(now, 10);
    FormatsAgree(id);
  }

  method EncodeRandom(random: seq<byte>) returns (str: string)
    ensures str == seq(|random|, i requires 0 <= i < |random| => ALPHABET[random[i] % 32])
  {
    str := "";
    for i := 0 to |random|
      invariant |str| == i && forall k :: 0 <= k < i ==> str[k] == ALPHABET[random[k] % 32]
    {
      str := str + [ALPHABET[random[i] % 32]];
    }
  }

  /** The time's six bytes, then the ten random ones, as one big-endian number. */
  method ActionIdValue(time: nat, random: seq<byte>) returns (value: nat)
    requires |random| == 10 && time <= MAX_TIME
    ensures value == time * Pow(256, 10) + BigEndian(random)
  {
    hide Pow, Shifted;
    var bytes := new byte[16];
    TimeFits(time);
    for i := 0 to 6
      invariant BigEndian(bytes[..i]) == Shifted(time, 256, 6 - i)
    {
      ShiftedMore(time, 256, 5 - i);
      bytes[i] := Shifted(time, 256, 5 - i) % 256;
      assert bytes[..i + 1][..i] == bytes[..i];
    }
    ghost var head := bytes[..6];
    assert BigEndian(head) == time;
    forall i | 6 <= i < 16 {
      bytes[i] := random[i - 6];
    }
    assert bytes[..6] == head;
    assert bytes[..16] == head + random;
    BigEndianAppend(head, random);
    value := 0;
    for i := 0 to 16
      invariant value == BigEndian(bytes[..i])
    {
      value := value * 256 + bytes[i];
      assert bytes[..i + 1][..i] == bytes[..i];
    }
  }

  lemma TimeFits(time: nat)
    requires time <= MAX_TIME
    ensures Shifted(time, 256, 6) == 0 && Shifted(time, 256, 0) == time
  {
    Sizes();
    DivIs(time, Pow(256, 6), 0, time);
  }

  /** Takes a number's base-32 digits from the top, five bits at a time. */
  method EncodeValue(value: nat, len: nat) returns (encoded: string)
    ensures encoded == Base32(value, len)
  {
    hide Shifted;
    encoded := "";
    ShiftedMore(value, 32, 0);
    for i := 0 to len
      invariant encoded == Base32(Shifted(value, 32, len - i), i)
    {
      var k := len - 1 - i;
      ShiftedMore(value, 32, k);
      encoded := encoded + [ALPHABET[Shifted(value, 32, k) % 32]];
    }
  }

  /** `createActionId`; None stands for the exception of the final format check. */
  method CreateActionId(now: int, random: seq<byte>) returns (id: Option<string>)
    requires |random| == 10
    ensures id == Some(ActionIdOf(now, random))
  {
    hide Pow, Base32, BigEndian;
    var time := if now < MAX_TIME then now else MAX_TIME;
    time := if time > 0 then time else 0;
    var value := ActionIdValue(time, random);
    var encoded := EncodeValue(value, 26);
    ActionIdValid(now, random);
    if !ValidActionId(encoded) {
      return None;
    }
    id := Some(encoded);
  }
}
