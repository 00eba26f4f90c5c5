/** `stableStringify`: one text per JSON value, whatever the order of object keys. */
module StableJson {
  import Text

  /** A JSON value as the program holds it: object fields come in some order.
      A number is given by the text that `JSON.stringify` prints for it. */
  datatype Json =
    | Null
    | Bool(b: bool)
    | Num(text: string)
    | Str(s: string)
    | Arr(items: seq<Json>)
    | Obj(fields: seq<Keyed<Json>>)

  datatype Keyed<T> = Keyed(key: string, value: T)

  /** What a JSON value means: object fields are looked up by key. */
  datatype Value =
    | VNull
    | VBool(b: bool)
    | VNum(text: string)
    | VStr(s: string)
    | VArr(items: seq<Value>)
    | VObj(fields: map<string, Value>)

  predicate NumChar(c: char) { '0' <= c <= '9' || c in {'+', '-', '.', 'e', 'E'} }

  predicate NumText(t: string) {
    t != "" && ('0' <= t[0] <= '9' || t[0] == '-') && forall i :: 0 <= i < |t| ==> NumChar(t[i])
  }

  ghost predicate DistinctKeys<T>(fs: seq<Keyed<T>>) {
    forall i, j :: 0 <= i < j < |fs| ==> fs[i].key != fs[j].key
  }

  /** Numbers look like numbers, and no object has a key twice. */
  ghost predicate Legal(j: Json)
    decreases j
  {
    match j
    case Num(t) => NumText(t)
    case Arr(items) => forall i :: 0 <= i < |items| ==> Legal(items[i])
    case Obj(fs) => DistinctKeys(fs) && forall i :: 0 <= i < |fs| ==> Legal(fs[i].value)
    case _ => true
  }

  function Meaning(j: Json): Value
    decreases j, 1
  {
    match j
    case Null => VNull
    case Bool(b) => VBool(b)
    case Num(t) => VNum(t)
    case Str(s) => VStr(s)
    case Arr(items) => VArr(MeaningAll(items))
    case Obj(fs) => VObj(MeaningFields(fs))
  }

  function MeaningAll(items: seq<Json>): seq<Value>
    decreases items, 0
  {
    if items == [] then [] else [Meaning(items[0])] + MeaningAll(items[1..])
  }

  function MeaningFields(fs: seq<Keyed<Json>>): map<string, Value>
    decreases fs, 0
  {
    if fs == [] then map[] else MeaningFields(fs[1..])[fs[0].key := Meaning(fs[0].value)]
  }

  // ---------------------------------------------------------------- the order of keys

  /** Comparing strings character by character. */
  predicate Before(s: string, t: string) {
    t != "" && (s == "" || s[0] < t[0] || (s[0] == t[0] && Before(s[1..], t[1..])))
  }

  lemma {:induction false} BeforeTotal(s: string, t: string)
    ensures s == t || Before(s, t) || Before(t, s)
    ensures !(Before(s, t) && Before(t, s))
    ensures !Before(s, s)
    decreases |s|
  {
    if s != "" {
      if t != "" {
        BeforeTotal(s[1..], t[1..]);
        assert s == [s[0]] + s[1..] && t == [t[0]] + t[1..];
      }
      BeforeTotal(s[1..], s[1..]);
    }
  }

  lemma {:induction false} BeforeTransitive(s: string, t: string, u: string)
    requires Before(s, t) && Before(t, u)
    ensures Before(s, u)
    decreases |s|
  {
    if s != "" && s[0] == t[0] == u[0] {
      BeforeTransitive(s[1..], t[1..], u[1..]);
    }
  }

  function Insert<T>(fs: seq<Keyed<T>>, f: Keyed<T>): seq<Keyed<T>> {
    if fs == [] || !Before(fs[0].key, f.key) then [f] + fs else [fs[0]] + Insert(fs[1..], f)
  }

  /** The fields in the order of their sorted keys. */
  function Sorted<T>(fs: seq<Keyed<T>>): seq<Keyed<T>> {
    if fs == [] then [] else Insert(Sorted(fs[1..]), fs[0])
  }

  // ---------------------------------------------------------------- printing

  function Hex(n: nat): char
    requires n < 16
  {
    if n < 10 then (48 + n) as char else (87 + n) as char
  }

  /** How `JSON.stringify` writes one character of a string. */
  function Escaped(c: char): string {
    if c == '\"' then "\\\""
    else if c == '\\' then "\\\\"
    else if c == 8 as char then "\\b"
    else if c == '\t' then "\\t"
    else if c == '\n' then "\\n"
    else if c == 12 as char then "\\f"
    else if c == '\r' then "\\r"
    else if c < 32 as char then "\\u00" + [Hex(c as int / 16), Hex(c as int % 16)]
    else [c]
  }

  function EscapedAll(s: string): string { if s == "" then "" else Escaped(s[0]) + EscapedAll(s[1..]) }

  function Quote(s: string): string { "\"" + EscapedAll(s) + "\"" }

  function Stringify(j: Json): string
    decreases j, 1
  {
    match j
    case Null => "null"
    case Bool(b) => if b then "true" else "false"
    case Num(t) => t
    case Str(s) => Quote(s)
    case Arr(items) => "[" + Text.Join(StringifyAll(items), ',') + "]"
    case Obj(fs) => "{" + Text.Join(Entries(Sorted(StringifyFields(fs))), ',') + "}"
  }

  function StringifyAll(items: seq<Json>): seq<string>
    decreases items, 0
  {
    if items == [] then [] else [Stringify(items[0])] + StringifyAll(items[1..])
  }

  /** Each key with the text of its value. */
  function StringifyFields(fs: seq<Keyed<Json>>): seq<Keyed<string>>
    decreases fs, 0
  {
    if fs == [] then [] else [Keyed(fs[0].key, Stringify(fs[0].value))] + StringifyFields(fs[1..])
  }

  function Entries(ts: seq<Keyed<string>>): seq<string> {
    if ts == [] then [] else [Quote(ts[0].key) + ":" + ts[0].value] + Entries(ts[1..])
  }

  // ---------------------------------------------------------------- the normal form

  function Normal(j: Json): Json
    decreases j, 1
  {
    match j
    case Arr(items) => Arr(NormalAll(items))
    case Obj(fs) => Obj(Sorted(NormalFields(fs)))
    case _ => j
  }

  function NormalAll(items: seq<Json>): (r: seq<Json>)
    ensures |r| == |items|
    decreases items, 0
  {
    if items == [] then [] else [Normal(items[0])] + NormalAll(items[1..])
  }

  function NormalFields(fs: seq<Keyed<Json>>): (r: seq<Keyed<Json>>)
    ensures |r| == |fs|
    decreases fs, 0
  {
    if fs == [] then [] else [Keyed(fs[0].key, Normal(fs[0].value))] + NormalFields(fs[1..])
  }

  /** Prints a value without sorting anything, each list ending in its own bracket. */
  function Print(j: Json): string
    decreases j, 1
  {
    match j
    case Null => "null"
    case Bool(b) => if b then "true" else "false"
    case Num(t) => t
    case Str(s) => Quote(s)
    case Arr(items) => "[" + PrintItems(items)
    case Obj(fs) => "{" + PrintFields(fs)
  }

  function PrintItems(items: seq<Json>): string
    decreases items, 0
  {
    if items == [] then "]"
    else Print(items[0]) + (if |items| == 1 then "]" else "," + PrintItems(items[1..]))
  }

  function PrintFields(fs: seq<Keyed<Json>>): string
    decreases fs, 0
  {
    if fs == [] then "}"
    else Quote(fs[0].key) + ":" + Print(fs[0].value) + (if |fs| == 1 then "}" else "," + PrintFields(fs[1..]))
  }
}
