/** `stableStringify` is canonical: equal texts, equal values up to key order, and conversely. */
module StableJsonLaws {
  import Text
  import opened StableJson

  // ---------------------------------------------------------------- texts that delimit themselves

  lemma EscapedShape(c: char)
    ensures |Escaped(c)| >= 1
    ensures Escaped(c)[0] != '\"'
    ensures Escaped(c)[0] == '\\' ==> |Escaped(c)| >= 2
    ensures Escaped(c)[0] != '\\' ==> Escaped(c) == [c]
  {
  }

  /** The character after the backslash, and the last two of a long escape, tell which character was meant. */
  lemma EscapesDiffer(c: char, d: char)
    requires Escaped(c)[0] == '\\' && Escaped(d)[0] == '\\' && |Escaped(c)| >= 2 && |Escaped(d)| >= 2
    requires Escaped(c)[1] == Escaped(d)[1]
    ensures |Escaped(c)| == |Escaped(d)|
    ensures |Escaped(c)| == 6 && Escaped(c)[4..] == Escaped(d)[4..] ==> c == d
    ensures |Escaped(c)| == 2 ==> c == d
  {
    if |Escaped(c)| == 6 {
      var m, n := c as int, d as int;
      assert Escaped(c)[4..] == [Hex(m / 16), Hex(m % 16)];
      if |Escaped(d)| == 6 && Escaped(c)[4..] == Escaped(d)[4..] {
        assert Escaped(d)[4..] == [Hex(n / 16), Hex(n % 16)];
        assert Hex(m / 16) == Escaped(c)[4..][0] == Hex(n / 16);
        assert Hex(m % 16) == Escaped(c)[4..][1] == Hex(n % 16);
        HexInjective(m / 16, n / 16);
        HexInjective(m % 16, n % 16);
      }
    }
  }

  lemma HexInjective(m: nat, n: nat)
    requires m < 16 && n < 16 && Hex(m) == Hex(n)
    ensures m == n
  {
    assert Hex(m) as int == if m < 10 then 48 + m else 87 + m;
    assert Hex(n) as int == if n < 10 then 48 + n else 87 + n;
  }

  /** What one character is written as never runs into what follows. */
  lemma EscapedPrefix(c: char, d: char, x: string, y: string)
    requires Escaped(c) + x == Escaped(d) + y
    ensures c == d && x == y
  {
    hide Escaped;
    var p, q := Escaped(c) + x, Escaped(d) + y;
    EscapedShape(c);
    EscapedShape(d);
    assert p[0] == Escaped(c)[0] && q[0] == Escaped(d)[0];
    if Escaped(c)[0] == '\\' {
      assert p[1] == Escaped(c)[1] && q[1] == Escaped(d)[1];
      EscapesDiffer(c, d);
      assert |Escaped(c)| == 6 ==> Escaped(c)[4..] == p[4..6] && Escaped(d)[4..] == q[4..6];
      EscapedSizes(c);
    }
    assert c == d;
    assert x == p[|Escaped(c)|..] && y == q[|Escaped(d)|..];
  }

  lemma EscapedSizes(c: char)
    ensures |Escaped(c)| in {1, 2, 6}
  {
  }

  lemma {:induction false} EscapedAllPrefix(s: string, t: string, x: string, y: string)
    requires EscapedAll(s) + "\"" + x == EscapedAll(t) + "\"" + y
    ensures s == t && x == y
    decreases |s|
  {
    hide Escaped;
    var p, q := EscapedAll(s) + "\"" + x, EscapedAll(t) + "\"" + y;
    if s != "" { EscapedShape(s[0]); }
    if t != "" { EscapedShape(t[0]); }
    assert p[0] == if s == "" then '\"' else Escaped(s[0])[0];
    assert q[0] == if t == "" then '\"' else Escaped(t[0])[0];
    if s == "" {
      assert x == p[1..] && y == q[1..];
    } else {
      var u, v := EscapedAll(s[1..]) + "\"" + x, EscapedAll(t[1..]) + "\"" + y;
      assert p == Escaped(s[0]) + u && q == Escaped(t[0]) + v;
      EscapedPrefix(s[0], t[0], u, v);
      EscapedAllPrefix(s[1..], t[1..], x, y);
      assert s == [s[0]] + s[1..] && t == [t[0]] + t[1..];
    }
  }

  lemma QuotePrefix(s: string, t: string, x: string, y: string)
    requires Quote(s) + x == Quote(t) + y
    ensures s == t && x == y
  {
    hide EscapedAll;
    assert (Quote(s) + x)[1..] == EscapedAll(s) + "\"" + x;
    assert (Quote(t) + y)[1..] == EscapedAll(t) + "\"" + y;
    EscapedAllPrefix(s, t, x, y);
  }

  /** What may follow a value: nothing, a comma or a closing bracket. */
  predicate Ended(x: string) { x == "" || x[0] in {',', ']', '}'} }

  lemma NumPrefix(s: string, t: string, x: string, y: string)
    requires NumText(s) && NumText(t) && Ended(x) && Ended(y) && s + x == t + y
    ensures s == t && x == y
  {
    var p := s + x;
    assert forall i :: 0 <= i < |s| ==> NumChar(p[i]);
    assert forall i :: 0 <= i < |t| ==> NumChar((t + y)[i]);
    assert |s| < |p| ==> p[|s|] == x[0];
    assert |t| < |p| ==> (t + y)[|t|] == y[0];
    assert |s| == |t|;
    assert s == p[..|s|] && t == (t + y)[..|t|];
    assert x == p[|s|..] && y == (t + y)[|t|..];
  }

  // ---------------------------------------------------------------- printing is injective

  /** The first character tells what kind of value follows. */
  function Mark(j: Json): char
    requires j.Num? ==> j.text != ""
  {
    match j
    case Null => 'n'
    case Bool(b) => if b then 't' else 'f'
    case Num(t) => t[0]
    case Str(_) => '\"'
    case Arr(_) => '['
    case Obj(_) => '{'
  }

  lemma PrintMark(j: Json)
    requires Legal(j)
    ensures Print(j) != "" && Print(j)[0] == Mark(j)
    ensures Mark(j) != ']' && Mark(j) != '}'
  {
  }

  lemma Cancel(s: string, x: string, y: string)
    requires s + x == s + y
    ensures x == y
  {
    assert (s + x)[|s|..] == x && (s + y)[|s|..] == y;
  }

  /** Values that print alike are of one kind. */
  lemma {:induction false} SameKind(u: Json, v: Json, x: string, y: string)
    requires Legal(u) && Legal(v) && Print(u) + x == Print(v) + y
    ensures (u.Num? <==> v.Num?) && (u.Str? <==> v.Str?) && (u.Arr? <==> v.Arr?) && (u.Obj? <==> v.Obj?)
    ensures u.Null? || u.Bool? ==> u == v
  {
    hide Print;
    PrintMark(u);
    PrintMark(v);
    assert (Print(u) + x)[0] == Print(u)[0] && (Print(v) + y)[0] == Print(v)[0];
  }

  /** Without its bracket, a printed list or object is what stands inside. */
  lemma Inside(bracket: string, s: string, x: string, t: string, y: string)
    requires (bracket + s) + x == (bracket + t) + y
    ensures s + x == t + y
  {
    assert (bracket + s) + x == bracket + (s + x) && (bracket + t) + y == bracket + (t + y);
    Cancel(bracket, s + x, t + y);
  }

  lemma {:induction false} PrintPrefix(u: Json, v: Json, x: string, y: string)
    requires Legal(u) && Legal(v) && Ended(x) && Ended(y)
    requires Print(u) + x == Print(v) + y
    ensures u == v && x == y
    decreases u, 1
  {
    hide PrintItems, PrintFields, Quote, Ended, NumText;
    SameKind(u, v, x, y);
    match u
    case Null => Cancel(Print(u), x, y);
    case Bool(_) => Cancel(Print(u), x, y);
    case Num(t) => NumPrefix(t, v.text, x, y);
    case Str(s) => QuotePrefix(s, v.s, x, y);
    case Arr(items) =>
      Inside("[", PrintItems(items), x, PrintItems(v.items), y);
      ItemsPrefix(items, v.items, x, y);
    case Obj(fs) =>
      Inside("{", PrintFields(fs), x, PrintFields(v.fields), y);
      FieldsPrefix(fs, v.fields, x, y);
  }

  ghost predicate LegalItems(items: seq<Json>) { forall i :: 0 <= i < |items| ==> Legal(items[i]) }

  ghost predicate LegalFields(fs: seq<Keyed<Json>>) { forall i :: 0 <= i < |fs| ==> Legal(fs[i].value) }

  /** How a printed list goes on after its first element. */
  function ItemsTail(items: seq<Json>): string
    requires items != []
  {
    if |items| == 1 then "]" else "," + PrintItems(items[1..])
  }

  lemma {:induction false} ItemsPrefix(us: seq<Json>, vs: seq<Json>, x: string, y: string)
    requires LegalItems(us) && LegalItems(vs)
    requires PrintItems(us) + x == PrintItems(vs) + y
    ensures us == vs && x == y
    decreases us, 0
  {
    hide Print;
    var p, q := PrintItems(us) + x, PrintItems(vs) + y;
    if us != [] { PrintMark(us[0]); assert p[0] == Print(us[0])[0]; }
    if vs != [] { PrintMark(vs[0]); assert q[0] == Print(vs[0])[0]; }
    if us == [] || vs == [] {
      assert x == p[1..] && y == q[1..];
    } else {
      assert p == Print(us[0]) + (ItemsTail(us) + x) && q == Print(vs[0]) + (ItemsTail(vs) + y);
      PrintPrefix(us[0], vs[0], ItemsTail(us) + x, ItemsTail(vs) + y);
      ItemsTailPrefix(us, vs, x, y);
    }
  }

  lemma {:induction false} ItemsTailPrefix(us: seq<Json>, vs: seq<Json>, x: string, y: string)
    requires us != [] && vs != [] && us[0] == vs[0] && LegalItems(us) && LegalItems(vs)
    requires ItemsTail(us) + x == ItemsTail(vs) + y
    ensures us == vs && x == y
    decreases us[1..], 1
  {
    hide PrintItems, Legal;
    var p, q := ItemsTail(us) + x, ItemsTail(vs) + y;
    assert p[0] == ItemsTail(us)[0] && q[0] == ItemsTail(vs)[0];
    assert us == [us[0]] + us[1..] && vs == [vs[0]] + vs[1..];
    if |us| == 1 {
      Cancel("]", x, y);
    } else {
      Inside(",", PrintItems(us[1..]), x, PrintItems(vs[1..]), y);
      ItemsPrefix(us[1..], vs[1..], x, y);
    }
  }

  function FieldsTail(fs: seq<Keyed<Json>>): string
    requires fs != []
  {
    if |fs| == 1 then "}" else "," + PrintFields(fs[1..])
  }

  lemma Regroup(k: string, v: string, t: string, x: string)
    ensures (k + ":" + v + t) + x == k + (":" + (v + (t + x)))
  {
    assert (k + ":" + v + t) + x == (k + ":" + v) + (t + x);
    assert (k + ":" + v) + (t + x) == (k + ":") + (v + (t + x));
    assert (k + ":") + (v + (t + x)) == k + (":" + (v + (t + x)));
  }

  lemma FieldsSplit(fs: seq<Keyed<Json>>, x: string)
    requires fs != []
    ensures PrintFields(fs) + x == Quote(fs[0].key) + (":" + (Print(fs[0].value) + (FieldsTail(fs) + x)))
    ensures PrintFields(fs) + x != "" && (PrintFields(fs) + x)[0] == '\"'
  {
    hide Print, Quote;
    Regroup(Quote(fs[0].key), Print(fs[0].value), FieldsTail(fs), x);
    QuoteMark(fs[0].key);
  }

  lemma QuoteMark(s: string)
    ensures Quote(s) != "" && Quote(s)[0] == '\"'
  {
  }

  lemma {:induction false} FieldPrefix(f: Keyed<Json>, g: Keyed<Json>, a: string, b: string)
    requires Legal(f.value) && Legal(g.value) && Ended(a) && Ended(b)
    requires Quote(f.key) + (":" + (Print(f.value) + a)) == Quote(g.key) + (":" + (Print(g.value) + b))
    ensures f == g && a == b
    decreases f, 0
  {
    hide Print, Quote, Legal;
    var s, t := Print(f.value) + a, Print(g.value) + b;
    QuotePrefix(f.key, g.key, ":" + s, ":" + t);
    assert (":" + s)[1..] == s && (":" + t)[1..] == t;
    PrintPrefix(f.value, g.value, a, b);
  }

  lemma {:induction false} FieldsPrefix(fs: seq<Keyed<Json>>, gs: seq<Keyed<Json>>, x: string, y: string)
    requires LegalFields(fs) && LegalFields(gs)
    requires PrintFields(fs) + x == PrintFields(gs) + y
    ensures fs == gs && x == y
    decreases fs, 0
  {
    hide Print, Quote, Legal;
    if fs != [] { FieldsSplit(fs, x); }
    if gs != [] { FieldsSplit(gs, y); }
    if fs == [] || gs == [] {
      assert x == (PrintFields(fs) + x)[1..] && y == (PrintFields(gs) + y)[1..];
    } else {
      FieldsTailEnded(fs, x);
      FieldsTailEnded(gs, y);
      FieldPrefix(fs[0], gs[0], FieldsTail(fs) + x, FieldsTail(gs) + y);
      FieldsTailPrefix(fs, gs, x, y);
    }
  }

  lemma FieldsTailEnded(fs: seq<Keyed<Json>>, x: string)
    requires fs != []
    ensures Ended(FieldsTail(fs) + x)
  {
  }

  lemma {:induction false} FieldsTailPrefix(fs: seq<Keyed<Json>>, gs: seq<Keyed<Json>>, x: string, y: string)
    requires fs != [] && gs != [] && fs[0] == gs[0] && LegalFields(fs) && LegalFields(gs)
    requires FieldsTail(fs) + x == FieldsTail(gs) + y
    ensures fs == gs && x == y
    decreases fs[1..], 1
  {
    hide PrintFields, Legal;
    var p, q := FieldsTail(fs) + x, FieldsTail(gs) + y;
    assert p[0] == FieldsTail(fs)[0] && q[0] == FieldsTail(gs)[0];
    assert fs == [fs[0]] + fs[1..] && gs == [gs[0]] + gs[1..];
    if |fs| == 1 {
      Cancel("}", x, y);
    } else {
      Inside(",", PrintFields(fs[1..]), x, PrintFields(gs[1..]), y);
      FieldsPrefix(fs[1..], gs[1..], x, y);
    }
  }

  // ---------------------------------------------------------------- stringifying is printing the normal form

  lemma {:induction false} InsertTexts(fs: seq<Keyed<Json>>, f: Keyed<Json>)
    ensures Texts(Insert(fs, f)) == Insert(Texts(fs), Keyed(f.key, Print(f.value)))
    decreases |fs|
  {
    hide Print, Before;
    if fs != [] && Before(fs[0].key, f.key) {
      InsertTexts(fs[1..], f);
    } else {
      assert ([f] + fs)[1..] == fs;
    }
  }

  function Texts(fs: seq<Keyed<Json>>): (r: seq<Keyed<string>>)
    ensures |r| == |fs|
  {
    if fs == [] then [] else [Keyed(fs[0].key, Print(fs[0].value))] + Texts(fs[1..])
  }

  lemma {:induction false} SortedTexts(fs: seq<Keyed<Json>>)
    ensures Texts(Sorted(fs)) == Sorted(Texts(fs))
    decreases |fs|
  {
    hide Print, Before;
    if fs != [] {
      SortedTexts(fs[1..]);
      InsertTexts(Sorted(fs[1..]), fs[0]);
    }
  }

  lemma {:induction false} JoinItems(items: seq<Json>, texts: seq<string>)
    requires |texts| == |items| && forall i :: 0 <= i < |items| ==> texts[i] == Print(items[i])
    ensures Text.Join(texts, ',') + "]" == PrintItems(items)
    decreases |items|
  {
    hide Print;
    if |items| > 1 { JoinItems(items[1..], texts[1..]); }
  }

  lemma {:induction false} JoinFields(fs: seq<Keyed<Json>>)
    ensures Text.Join(Entries(Texts(fs)), ',') + "}" == PrintFields(fs)
    decreases |fs|
  {
    hide Print, Quote;
    EntriesSize(Texts(fs));
    if |fs| > 1 {
      JoinFields(fs[1..]);
      var e, rest := Quote(fs[0].key) + ":" + Print(fs[0].value), Text.Join(Entries(Texts(fs[1..])), ',');
      assert Entries(Texts(fs))[1..] == Entries(Texts(fs[1..]));
      assert e + "," + rest + "}" == e + ("," + (rest + "}"));
    }
  }

  lemma {:induction false} EntriesSize(ts: seq<Keyed<string>>)
    ensures |Entries(ts)| == |ts|
    decreases |ts|
  {
    hide Quote;
    if ts != [] { EntriesSize(ts[1..]); }
  }

  lemma {:induction false} StringifyIsPrint(j: Json)
    ensures Stringify(j) == Print(Normal(j))
    decreases j, 1
  {
    hide Text.Join, Quote, Sorted;
    match j
    case Arr(items) =>
      StringifyAllIsPrint(items);
      JoinItems(NormalAll(items), StringifyAll(items));
      assert "[" + (Text.Join(StringifyAll(items), ',') + "]") == "[" + Text.Join(StringifyAll(items), ',') + "]";
    case Obj(fs) =>
      StringifyFieldsIsPrint(fs);
      SortedTexts(NormalFields(fs));
      JoinFields(Sorted(NormalFields(fs)));
      var texts := Text.Join(Entries(Sorted(StringifyFields(fs))), ',');
      assert "{" + (texts + "}") == "{" + texts + "}";
    case _ =>
  }

  lemma {:induction false} StringifyAllIsPrint(items: seq<Json>)
    ensures |StringifyAll(items)| == |items|
    ensures forall i :: 0 <= i < |items| ==> StringifyAll(items)[i] == Print(NormalAll(items)[i])
    decreases items, 0
  {
    hide Stringify, Print, Normal;
    if items != [] {
      StringifyIsPrint(items[0]);
      StringifyAllIsPrint(items[1..]);
    }
  }

  lemma {:induction false} StringifyFieldsIsPrint(fs: seq<Keyed<Json>>)
    ensures StringifyFields(fs) == Texts(NormalFields(fs))
    decreases fs, 0
  {
    hide Stringify, Print, Normal;
    if fs != [] {
      StringifyIsPrint(fs[0].value);
      StringifyFieldsIsPrint(fs[1..]);
      assert NormalFields(fs)[1..] == NormalFields(fs[1..]);
    }
  }

  // ---------------------------------------------------------------- the normal form is the meaning

  ghost predicate Ascending(fs: seq<Keyed<Json>>) {
    forall i, j :: 0 <= i < j < |fs| ==> Before(fs[i].key, fs[j].key)
  }

  ghost predicate HasKey(fs: seq<Keyed<Json>>, k: string) { exists i :: 0 <= i < |fs| && fs[i].key == k }

  lemma {:induction false} InsertKeeps(fs: seq<Keyed<Json>>, f: Keyed<Json>)
    requires Ascending(fs) && !HasKey(fs, f.key)
    ensures Ascending(Insert(fs, f))
    ensures forall g :: g in Insert(fs, f) <==> g == f || g in fs
    decreases |fs|
  {
    hide Before;
    if fs != [] && Before(fs[0].key, f.key) {
      var rest := fs[1..];
      assert fs == [fs[0]] + rest;
      assert forall i :: 0 <= i < |rest| ==> rest[i] == fs[i + 1];
      InsertKeeps(rest, f);
      var r := Insert(rest, f);
      forall i | 0 <= i < |r|
        ensures Before(fs[0].key, r[i].key)
      {
        assert r[i] in r;
        if r[i] != f {
          assert r[i] in rest;
          var k :| 0 <= k < |rest| && rest[k] == r[i];
          assert fs[k + 1] == r[i];
        }
      }
    } else if fs != [] {
      BeforeTotal(fs[0].key, f.key);
      assert fs[0].key != f.key;
      forall i | 0 <= i < |fs|
        ensures Before(f.key, fs[i].key)
      {
        if i > 0 { BeforeTransitive(f.key, fs[0].key, fs[i].key); }
      }
    }
  }

  lemma {:induction false} SortedKeeps(fs: seq<Keyed<Json>>)
    requires DistinctKeys(fs)
    ensures Ascending(Sorted(fs))
    ensures forall g :: g in Sorted(fs) <==> g in fs
    decreases |fs|
  {
    if fs != [] {
      SortedKeeps(fs[1..]);
      assert fs == [fs[0]] + fs[1..];
      assert forall g :: g in Sorted(fs[1..]) ==> g in fs[1..] && g.key != fs[0].key;
      InsertKeeps(Sorted(fs[1..]), fs[0]);
    }
  }

  lemma {:induction false} MeaningHas(fs: seq<Keyed<Json>>, f: Keyed<Json>)
    requires DistinctKeys(fs) && f in fs
    ensures f.key in MeaningFields(fs) && MeaningFields(fs)[f.key] == Meaning(f.value)
    decreases |fs|
  {
    hide Meaning;
    if f != fs[0] {
      assert f in fs[1..];
      MeaningHas(fs[1..], f);
      var i :| 0 <= i < |fs[1..]| && fs[1..][i] == f;
      assert fs[i + 1] == f;
    }
  }

  lemma {:induction false} MeaningOnly(fs: seq<Keyed<Json>>, k: string) returns (f: Keyed<Json>)
    requires k in MeaningFields(fs)
    ensures f in fs && f.key == k
    decreases |fs|
  {
    hide Meaning;
    if fs[0].key == k { f := fs[0]; } else { f := MeaningOnly(fs[1..], k); }
  }

  lemma AscendingDistinct(fs: seq<Keyed<Json>>)
    requires Ascending(fs)
    ensures DistinctKeys(fs)
  {
    forall i, j | 0 <= i < j < |fs|
      ensures fs[i].key != fs[j].key
    {
      BeforeTotal(fs[i].key, fs[j].key);
    }
  }

  /** Two lists of fields with the same members mean the same map. */
  lemma SameFieldsSameMap(fs: seq<Keyed<Json>>, gs: seq<Keyed<Json>>)
    requires DistinctKeys(fs) && DistinctKeys(gs) && forall f :: f in fs <==> f in gs
    ensures MeaningFields(fs) == MeaningFields(gs)
  {
    hide Meaning, MeaningFields, DistinctKeys;
    forall k
      ensures k in MeaningFields(fs) <==> k in MeaningFields(gs)
      ensures k in MeaningFields(fs) && k in MeaningFields(gs) ==> MeaningFields(fs)[k] == MeaningFields(gs)[k]
    {
      if k in MeaningFields(fs) {
        var f := MeaningOnly(fs, k);
        MeaningHas(fs, f);
        MeaningHas(gs, f);
      } else if k in MeaningFields(gs) {
        var f := MeaningOnly(gs, k);
        MeaningHas(fs, f);
      }
    }
  }

  lemma {:induction false} NormalKeys(fs: seq<Keyed<Json>>)
    ensures forall i :: 0 <= i < |fs| ==> NormalFields(fs)[i] == Keyed(fs[i].key, Normal(fs[i].value))
    decreases |fs|
  {
    hide Normal;
    if fs != [] { NormalKeys(fs[1..]); }
  }

  /** Normalising changes neither the meaning of a value nor its legality. */
  lemma {:induction false} NormalMeans(j: Json)
    requires Legal(j)
    ensures Legal(Normal(j)) && Meaning(Normal(j)) == Meaning(j)
    decreases j, 1
  {
    match j
    case Arr(items) => NormalAllMeans(items);
    case Obj(fs) =>
      NormalFieldsMeans(fs);
      var ns := NormalFields(fs);
      NormalKeys(fs);
      SortedKeeps(ns);
      AscendingDistinct(Sorted(ns));
      SameFieldsSameMap(ns, Sorted(ns));
      forall i | 0 <= i < |Sorted(ns)|
        ensures Legal(Sorted(ns)[i].value)
      {
        assert Sorted(ns)[i] in ns;
      }
    case _ =>
  }

  lemma {:induction false} NormalAllMeans(items: seq<Json>)
    requires LegalItems(items)
    ensures LegalItems(NormalAll(items)) && MeaningAll(NormalAll(items)) == MeaningAll(items)
    decreases items, 0
  {
    hide Normal, Meaning, Legal;
    if items != [] {
      NormalMeans(items[0]);
      NormalAllMeans(items[1..]);
      assert NormalAll(items)[1..] == NormalAll(items[1..]);
    }
  }

  lemma {:induction false} NormalFieldsMeans(fs: seq<Keyed<Json>>)
    requires LegalFields(fs)
    ensures LegalFields(NormalFields(fs)) && MeaningFields(NormalFields(fs)) == MeaningFields(fs)
    decreases fs, 0
  {
    hide Normal, Meaning, Legal;
    if fs != [] {
      NormalMeans(fs[0].value);
      NormalFieldsMeans(fs[1..]);
      assert NormalFields(fs)[1..] == NormalFields(fs[1..]);
    }
  }

  // ---------------------------------------------------------------- equal meanings, equal normal forms

  /** In normal form every object's keys ascend, at any depth. */
  ghost predicate IsNormal(j: Json)
    decreases j
  {
    match j
    case Arr(items) => forall i :: 0 <= i < |items| ==> IsNormal(items[i])
    case Obj(fs) => Ascending(fs) && forall i :: 0 <= i < |fs| ==> IsNormal(fs[i].value)
    case _ => true
  }

  lemma {:induction false} NormalIsNormal(j: Json)
    requires Legal(j)
    ensures IsNormal(Normal(j))
    decreases j
  {
    hide Sorted, Meaning;
    match j
    case Arr(items) =>
      NormalItems(items);
      forall i | 0 <= i < |items|
        ensures IsNormal(NormalAll(items)[i])
      {
        NormalIsNormal(items[i]);
      }
    case Obj(fs) =>
      NormalKeys(fs);
      forall i | 0 <= i < |fs|
        ensures IsNormal(NormalFields(fs)[i].value)
      {
        NormalIsNormal(fs[i].value);
      }
      SortedKeeps(NormalFields(fs));
      forall i | 0 <= i < |Sorted(NormalFields(fs))|
        ensures IsNormal(Sorted(NormalFields(fs))[i].value)
      {
        assert Sorted(NormalFields(fs))[i] in NormalFields(fs);
      }
    case _ =>
  }

  lemma {:induction false} NormalItems(items: seq<Json>)
    ensures forall i :: 0 <= i < |items| ==> NormalAll(items)[i] == Normal(items[i])
    decreases |items|
  {
    hide Normal;
    if items != [] { NormalItems(items[1..]); }
  }

  lemma {:induction false} MeaningItems(items: seq<Json>)
    ensures |MeaningAll(items)| == |items|
    ensures forall i :: 0 <= i < |items| ==> MeaningAll(items)[i] == Meaning(items[i])
    decreases |items|
  {
    hide Meaning;
    if items != [] { MeaningItems(items[1..]); }
  }

  /** Two normal values that mean the same are the same. */
  lemma {:induction false} NormalUnique(u: Json, v: Json)
    requires IsNormal(u) && IsNormal(v) && Meaning(u) == Meaning(v)
    ensures u == v
    decreases u
  {
    hide MeaningAll, MeaningFields;
    match u
    case Arr(us) =>
      MeaningItems(us);
      MeaningItems(v.items);
      forall i | 0 <= i < |us|
        ensures us[i] == v.items[i]
      {
        NormalUnique(us[i], v.items[i]);
      }
    case Obj(fs) =>
      var gs := v.fields;
      forall f | f in fs ensures f in gs { FieldMatches(u, v, f); }
      forall g | g in gs
        ensures g in fs
      {
        AscendingDistinct(gs);
        AscendingDistinct(fs);
        MeaningHas(gs, g);
        var f := MeaningOnly(fs, g.key);
        FieldMatches(u, v, f);
        SameKeySame(gs, f, g);
      }
      AscendingUnique(fs, gs);
    case _ =>
  }

  lemma SameKeySame(gs: seq<Keyed<Json>>, f: Keyed<Json>, g: Keyed<Json>)
    requires DistinctKeys(gs) && f in gs && g in gs && f.key == g.key
    ensures f == g
  {
  }

  lemma {:induction false} FieldMatches(u: Json, v: Json, f: Keyed<Json>)
    requires u.Obj? && v.Obj? && IsNormal(u) && IsNormal(v)
    requires MeaningFields(u.fields) == MeaningFields(v.fields) && f in u.fields
    ensures f in v.fields
    decreases f
  {
    hide Meaning, MeaningFields;
    AscendingDistinct(u.fields);
    AscendingDistinct(v.fields);
    MeaningHas(u.fields, f);
    var g := MeaningOnly(v.fields, f.key);
    MeaningHas(v.fields, g);
    NormalUnique(f.value, g.value);
  }

  /** Ascending lists with the same members are the same list. */
  lemma {:induction false} AscendingUnique(fs: seq<Keyed<Json>>, gs: seq<Keyed<Json>>)
    requires Ascending(fs) && Ascending(gs) && forall f :: f in fs <==> f in gs
    ensures fs == gs
    decreases |fs|
  {
    hide Before;
    assert gs != [] ==> gs[0] in fs;
    assert fs != [] ==> fs[0] in gs;
    if fs != [] {
      FirstIsLeast(fs, gs[0]);
      FirstIsLeast(gs, fs[0]);
      BeforeTotal(fs[0].key, gs[0].key);
      assert fs[0].key == gs[0].key;
      AscendingDistinct(fs);
      SameKeySame(fs, fs[0], gs[0]);
      AscendingDistinct(gs);
      forall f
        ensures f in fs[1..] <==> f in gs[1..]
      {
        RestHas(fs, f);
        RestHas(gs, f);
      }
      AscendingUnique(fs[1..], gs[1..]);
    }
  }

  lemma FirstIsLeast(fs: seq<Keyed<Json>>, f: Keyed<Json>)
    requires Ascending(fs) && f in fs
    ensures f.key == fs[0].key || Before(fs[0].key, f.key)
  {
  }

  lemma RestHas(fs: seq<Keyed<Json>>, f: Keyed<Json>)
    requires fs != [] && DistinctKeys(fs)
    ensures f in fs[1..] <==> f in fs && f != fs[0]
  {
    assert fs == [fs[0]] + fs[1..];
    if f in fs[1..] {
      var i :| 0 <= i < |fs[1..]| && fs[1..][i] == f;
      assert fs[i + 1] == f;
    }
  }

  /** The texts of two JSON values are equal if and only if the values are, up to the order of
      object keys, at any depth. */
  lemma {:induction false} Canonical(u: Json, v: Json)
    requires Legal(u) && Legal(v)
    ensures Stringify(u) == Stringify(v) <==> Meaning(u) == Meaning(v)
  {
    hide Stringify, Print, Meaning, Normal, Legal, IsNormal;
    StringifyIsPrint(u);
    StringifyIsPrint(v);
    NormalMeans(u);
    NormalMeans(v);
    if Stringify(u) == Stringify(v) {
      assert Print(Normal(u)) + "" == Print(Normal(v)) + "";
      PrintPrefix(Normal(u), Normal(v), "", "");
    }
    if Meaning(u) == Meaning(v) {
      NormalIsNormal(u);
      NormalIsNormal(v);
      NormalUnique(Normal(u), Normal(v));
    }
  }

  /** Where two keys first differ, the smaller character goes first; a key goes before its extensions. */
  lemma {:induction false} BeforeAt(p: string, c: char, x: string, d: char, y: string)
    ensures c < d ==> Before(p + [c] + x, p + [d] + y)
    ensures Before(p, p + [d] + y)
    decreases |p|
  {
    var s, t, u := p + [c] + x, p + [d] + y, p + [d] + y;
    if p != "" {
      BeforeAt(p[1..], c, x, d, y);
      assert s[1..] == p[1..] + [c] + x && t[1..] == p[1..] + [d] + y;
    }
  }

  /** What the text looks like: whichever way an object holds two fields, that of the smaller key is
      written first, each as its quoted key, a colon and its value's text. */
  lemma {:induction false} TwoFields(p: string, c: char, x: string, d: char, y: string, u: Json, v: Json)
    requires c < d
    ensures var first, second := Keyed(p + [c] + x, u), Keyed(p + [d] + y, v);
            && Stringify(Obj([first, second])) == Stringify(Obj([second, first]))
            && Stringify(Obj([first, second]))
               == "{" + (Quote(first.key) + ":" + Stringify(u)) + "," + (Quote(second.key) + ":" + Stringify(v)) + "}"
  {
    hide Quote, Before;
    BeforeAt(p, c, x, d, y);
    var first, second := Keyed(p + [c] + x, u), Keyed(p + [d] + y, v);
    BeforeTotal(first.key, second.key);
    var a, b := Keyed(first.key, Stringify(u)), Keyed(second.key, Stringify(v));
    PairOf(first, second);
    PairOf(second, first);
    SortedPair(a, b);
    JoinPair(Quote(a.key) + ":" + a.value, Quote(b.key) + ":" + b.value);
    EntriesPair(a, b);
  }

  lemma PairOf(f: Keyed<Json>, g: Keyed<Json>)
    ensures StringifyFields([f, g]) == [Keyed(f.key, Stringify(f.value)), Keyed(g.key, Stringify(g.value))]
  {
    assert [f, g][1..] == [g] && [g][1..] == [];
    assert StringifyFields([g]) == [Keyed(g.key, Stringify(g.value))];
  }

  lemma SortedPair(a: Keyed<string>, b: Keyed<string>)
    requires Before(a.key, b.key) && !Before(b.key, a.key)
    ensures Sorted([a, b]) == [a, b] && Sorted([b, a]) == [a, b]
  {
    hide Before;
    assert [a, b][1..] == [b] && [b, a][1..] == [a] && [a][1..] == [] && [b][1..] == [];
    assert Sorted([b]) == [b] && Sorted([a]) == [a];
  }

  lemma JoinPair(a: string, b: string)
    ensures Text.Join([a, b], ',') == a + "," + b
  {
    assert [a, b][1..] == [b];
  }

  lemma EntriesPair(a: Keyed<string>, b: Keyed<string>)
    ensures Entries([a, b]) == [Quote(a.key) + ":" + a.value, Quote(b.key) + ":" + b.value]
  {
    assert [a, b][1..] == [b] && [b][1..] == [];
    assert Entries([b]) == [Quote(b.key) + ":" + b.value];
  }

  /** Scalars are written by their names, and array items in order. */
  lemma {:induction false} TextsAsJson(u: Json, v: Json)
    ensures Stringify(Null) == "null" && Stringify(Bool(true)) == "true" && Stringify(Bool(false)) == "false"
    ensures Stringify(Arr([])) == "[]" && Stringify(Obj([])) == "{}"
    ensures Stringify(Arr([u, v])) == "[" + Stringify(u) + "," + Stringify(v) + "]"
  {
    hide Text.Join, StringifyAll;
    ItemTexts(u, v);
    JoinPair(Stringify(u), Stringify(v));
    EmptyTexts();
    var a, b := Stringify(u), Stringify(v);
    assert "[" + (a + "," + b) + "]" == "[" + a + "," + b + "]";
  }

  lemma ItemTexts(u: Json, v: Json)
    ensures StringifyAll([u, v]) == [Stringify(u), Stringify(v)] && StringifyAll([]) == []
  {
    hide Stringify;
    assert [u, v][1..] == [v] && [v][1..] == [];
    assert StringifyAll([v]) == [Stringify(v)];
  }

  lemma EmptyTexts()
    ensures Text.Join([], ',') == "" && Entries(Sorted(StringifyFields([]))) == []
  {
  }

  /** In strings, seven characters have a short escape and the other control characters four hexadecimal
      digits; all the rest stand for themselves. */
  lemma {:induction false} EscapesAsJson(c: char)
    ensures match c as int
            case 8 => Escaped(c) == "\\b"
            case 9 => Escaped(c) == "\\t"
            case 10 => Escaped(c) == "\\n"
            case 12 => Escaped(c) == "\\f"
            case 13 => Escaped(c) == "\\r"
            case 34 => Escaped(c) == "\\\""
            case 92 => Escaped(c) == "\\\\"
            case n => Escaped(c) == if n < 32 then "\\u00" + ["0123456789abcdef"[n / 16], "0123456789abcdef"[n % 16]] else [c]
  {
    hide Hex;
    if c as int < 32 {
      HexDigit(c as int / 16);
      HexDigit(c as int % 16);
    }
  }

  lemma HexDigit(n: nat)
    requires n < 16
    ensures Hex(n) == "0123456789abcdef"[n]
  {
  }
}
