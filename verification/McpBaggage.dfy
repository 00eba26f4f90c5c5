/** The interaction id's ride in a baggage header: appended by the client, found by the server. */
module McpBaggage {
  import opened Options
  import opened Text
  import ActionId

  const INTERACTION_KEY: string := "obs.interaction.id"

  /** Percent-decoding, given from outside; None is the exception it throws on malformed input. */
  type Decoder = string -> Option<string>

  ghost predicate DecodesPlainText(decode: Decoder) {
    forall s :: '%' !in s ==> decode(s) == Some(s)
  }

  // ---------------------------------------------------------------- reading

  datatype Found = Absent | Value(id: Option<string>) | Threw

  /** `parseInteractionHeader` */
  function ParseInteraction(value: string): Option<string> {
    if ActionId.ValidInteractionId(Trim(value)) then Some(Trim(value)) else None
  }

  /** What one entry contributes: nothing, the id it carries, or an exception. */
  function ReadEntry(decode: Decoder, entry: string): Found {
    var parts := Split(Trim(entry), '=');
    if parts[0] == "" || |parts| == 1 then Absent
    else match decode(Trim(parts[0]))
      case None => Threw
      case Some(key) =>
        if key != INTERACTION_KEY then Absent
        else match decode(Trim(parts[1]))
          case None => Threw
          case Some(value) => Value(ParseInteraction(value))
  }

  /** The first entry that says anything decides. */
  function Scan(decode: Decoder, entries: seq<string>): Found {
    if entries == [] then Absent
    else
      var first := ReadEntry(decode, entries[0]);
      if first.Absent? then Scan(decode, entries[1..]) else first
  }

  /** `parseBaggageInteractionId` */
  function Read(decode: Decoder, baggage: string): Found {
    if baggage == "" then Absent else Scan(decode, Split(baggage, ','))
  }

  // ---------------------------------------------------------------- writing

  /** The entries of a baggage header, trimmed, without empty ones. */
  function Entries(parts: seq<string>): seq<string> {
    if parts == [] then []
    else if Trim(parts[0]) == "" then Entries(parts[1..])
    else [Trim(parts[0])] + Entries(parts[1..])
  }

  function EntriesOf(baggage: string): seq<string> {
    if baggage == "" then [] else Entries(Split(baggage, ','))
  }

  predicate HasRawKey(entries: seq<string>) {
    exists i :: 0 <= i < |entries| && Trim(Split(entries[i], '=')[0]) == INTERACTION_KEY
  }

  function Pair(id: string): string { INTERACTION_KEY + "=" + id }

  /** `appendBaggagePair` for the interaction key and an id that needs no percent-encoding. */
  function Append(baggage: string, id: string): string {
    if baggage == "" then Pair(id)
    else
      var entries := EntriesOf(baggage);
      if HasRawKey(entries) then Join(entries, ',') else Join(entries + [Pair(id)], ',')
  }

  // ---------------------------------------------------------------- facts

  lemma {:induction false} EntriesFacts(parts: seq<string>)
    requires Without(parts, ',')
    ensures Without(Entries(parts), ',')
    ensures forall i :: 0 <= i < |Entries(parts)| ==>
              Entries(parts)[i] != "" && Trim(Entries(parts)[i]) == Entries(parts)[i]
    decreases |parts|
  {
    hide Trim;
    if parts != [] {
      EntriesFacts(parts[1..]);
      TrimFacts(parts[0]);
    }
  }

  lemma ReadTrimmed(decode: Decoder, entry: string)
    ensures ReadEntry(decode, Trim(entry)) == ReadEntry(decode, entry)
    ensures Trim(entry) == "" ==> ReadEntry(decode, entry) == Absent
  {
    hide Trim;
    TrimFacts(entry);
  }

  /** Tidying the entries does not change what they say. */
  lemma {:induction false} ScanEntries(decode: Decoder, parts: seq<string>)
    ensures Scan(decode, Entries(parts)) == Scan(decode, parts)
    decreases |parts|
  {
    hide ReadEntry, Trim;
    if parts != [] {
      ScanEntries(decode, parts[1..]);
      ReadTrimmed(decode, parts[0]);
      if Trim(parts[0]) != "" {
        assert Entries(parts)[1..] == Entries(parts[1..]);
      }
    }
  }

  lemma {:induction false} ScanAppend(decode: Decoder, a: seq<string>, b: seq<string>)
    ensures Scan(decode, a + b) == if Scan(decode, a).Absent? then Scan(decode, b) else Scan(decode, a)
    decreases |a|
  {
    hide ReadEntry;
    if a == [] {
      assert a + b == b;
    } else {
      ScanAppend(decode, a[1..], b);
      assert (a + b)[1..] == a[1..] + b;
    }
  }

  lemma PlainId(id: string)
    requires ActionId.ValidInteractionId(id)
    ensures NoSpace(id) && '%' !in id && '=' !in id && ',' !in id
  {
  }

  lemma PlainKey()
    ensures NoSpace(INTERACTION_KEY) && '%' !in INTERACTION_KEY && '=' !in INTERACTION_KEY && ',' !in INTERACTION_KEY
    ensures INTERACTION_KEY != ""
  {
  }

  lemma PairReads(decode: Decoder, id: string)
    requires DecodesPlainText(decode) && ActionId.ValidInteractionId(id)
    ensures ReadEntry(decode, Pair(id)) == Value(Some(id))
    ensures ',' !in Pair(id) && Trim(Pair(id)) == Pair(id)
  {
    hide Trim, Split, ActionId.ValidInteractionId;
    PlainId(id);
    PlainKey();
    TrimNothing(Pair(id));
    TrimNothing(INTERACTION_KEY);
    TrimNothing(id);
    SplitFirst(INTERACTION_KEY, '=', id);
    SplitOne(id, '=');
    assert Split(Pair(id), '=') == [INTERACTION_KEY, id];
  }

  /** Reading a joined list of tidy entries is scanning them. */
  lemma ReadJoined(decode: Decoder, entries: seq<string>)
    requires entries != [] && Without(entries, ',') && entries[0] != ""
    ensures Join(entries, ',') != "" && Read(decode, Join(entries, ',')) == Scan(decode, entries)
    ensures Split(Join(entries, ','), ',') == entries
  {
    SplitJoin(entries, ',');
  }

  lemma RawKeyNeedsEntries(entries: seq<string>)
    requires HasRawKey(entries)
    ensures entries != []
  {
  }

  /** The server reads back the client's id if and only if the baggage said nothing about the
      interaction before, nor named its key; or already carried this very id.  In either case the
      other entries keep their order. */
  lemma {:induction false} AppendExactly(decode: Decoder, baggage: string, id: string)
    requires DecodesPlainText(decode) && ActionId.ValidInteractionId(id)
    ensures Read(decode, Append(baggage, id)) == Value(Some(id)) <==>
            || (Read(decode, baggage).Absent? && !HasRawKey(EntriesOf(baggage)))
            || Read(decode, baggage) == Value(Some(id))
    ensures EntriesOf(Append(baggage, id))
         == EntriesOf(baggage) + (if HasRawKey(EntriesOf(baggage)) then [] else [Pair(id)])
  {
    hide ReadEntry, HasRawKey, Trim, Split, Join, ActionId.ValidInteractionId;
    var entries := EntriesOf(baggage);
    PairReads(decode, id);
    BaggageEntries(decode, baggage);
    var all := if HasRawKey(entries) then entries else entries + [Pair(id)];
    if HasRawKey(entries) { RawKeyNeedsEntries(entries); }
    PairNotEmpty(id);
    NoRawKey();
    assert Append(baggage, id) == Join(all, ',') by { JoinOne(Pair(id)); assert [] + [Pair(id)] == [Pair(id)]; }
    assert Without(all, ',');
    ReadJoined(decode, all);
    ScanAppend(decode, entries, [Pair(id)]);
    assert [Pair(id)][1..] == [];
    TidyEntries(all);
    assert entries + [] == entries;
  }

  lemma NoRawKey()
    ensures !HasRawKey([])
  {
  }

  lemma PairNotEmpty(id: string)
    ensures Pair(id) != ""
  {
  }

  lemma JoinOne(p: string)
    ensures Join([p], ',') == p
  {
  }

  lemma BaggageEntries(decode: Decoder, baggage: string)
    ensures var es := EntriesOf(baggage);
            && Without(es, ',')
            && (forall i :: 0 <= i < |es| ==> es[i] != "" && Trim(es[i]) == es[i])
            && Read(decode, baggage) == Scan(decode, es)
  {
    hide Trim, ReadEntry, Split;
    SplitWithout(baggage, ',');
    EntriesFacts(Split(baggage, ','));
    ScanEntries(decode, Split(baggage, ','));
  }

  lemma {:induction false} TidyEntries(es: seq<string>)
    requires forall i :: 0 <= i < |es| ==> es[i] != "" && Trim(es[i]) == es[i]
    ensures Entries(es) == es
    decreases |es|
  {
    hide Trim;
    if es != [] {
      TidyEntries(es[1..]);
      assert es == [es[0]] + es[1..];
    }
  }

  // ---------------------------------------------------------------- baggage from elsewhere

  /** No separators, and nothing to decode. */
  predicate Plain(s: string) { '%' !in s && '=' !in s && ',' !in s }

  /** `key=value`, or `key=value=more`, of which only the value counts. */
  ghost predicate IsEntry(entry: string, key: string, value: string) {
    && Trim(key) != "" && Plain(key) && Plain(value)
    && exists more :: entry == key + "=" + value + more && (more == "" || more[0] == '=') && ',' !in more
  }

  lemma {:induction false} EntryParts(entry: string, key: string, value: string)
    requires IsEntry(entry, key, value)
    ensures var parts := Split(entry, '='); |parts| >= 2 && parts[0] == key && parts[1] == value
    ensures ',' !in entry
  {
    hide Trim, Split;
    var more :| entry == key + "=" + value + more && (more == "" || more[0] == '=') && ',' !in more;
    assert entry == key + ['='] + (value + more);
    SplitFirst(key, '=', value + more);
    if more == "" {
      SplitOne(value, '=');
      assert value + more == value;
    } else {
      assert value + more == value + ['='] + more[1..];
      SplitFirst(value, '=', more[1..]);
    }
  }

  lemma PlainTrim(s: string)
    requires Plain(s)
    ensures '%' !in Trim(s)
  {
    hide Trim;
    TrimFacts(s);
  }

  /** What a tidy entry says: nothing under another key; under the interaction's, the id its value is, if
      it is one, with or without space around them. */
  lemma {:induction false} EntryReads(decode: Decoder, entry: string, key: string, value: string)
    requires DecodesPlainText(decode) && IsEntry(entry, key, value) && Trim(entry) == entry
    ensures ReadEntry(decode, entry) == if Trim(key) != "obs.interaction.id" then Absent
                                        else if ActionId.ValidInteractionId(Trim(value)) then Value(Some(Trim(value)))
                                        else Value(None)
  {
    hide Split, Trim, ActionId.ValidInteractionId;
    EntryParts(entry, key, value);
    PlainTrim(key);
    PlainTrim(value);
    TrimFacts(value);
    TrimOfNothing();
  }

  lemma TrimOfNothing()
    ensures Trim("") == ""
  {
  }

  /** Among the entries of any baggage, those before the first with the interaction's key are passed over,
      and those after it are not looked at. */
  lemma {:induction false} FirstKeyDecides(decode: Decoder, others: seq<string>, entry: string, value: string,
                                           rest: seq<string>)
    requires DecodesPlainText(decode) && Without(rest, ',')
    requires forall e :: e in others ==> e != "" && Trim(e) == e && OtherEntry(e)
    requires IsEntry(entry, "obs.interaction.id", value) && Trim(entry) == entry
    ensures Read(decode, Join(others + [entry] + rest, ','))
         == Value(if ActionId.ValidInteractionId(Trim(value)) then Some(Trim(value)) else None)
  {
    hide Split, Trim, Join, ReadEntry, ActionId.ValidInteractionId, IsEntry;
    OthersSilent(decode, others);
    EntryReads(decode, entry, INTERACTION_KEY, value);
    EntryParts(entry, INTERACTION_KEY, value);
    PlainKey();
    TrimNothing(INTERACTION_KEY);
    var all := others + [entry] + rest;
    ScanAppend(decode, others, [entry] + rest);
    assert all == others + ([entry] + rest) && ([entry] + rest)[0] == entry;
    EntryNotEmpty(entry, value);
    assert all[0] == if others == [] then entry else others[0];
    assert others != [] ==> others[0] in others;
    ReadJoined(decode, all);
  }

  ghost predicate OtherEntry(e: string) { exists key, value :: IsEntry(e, key, value) && Trim(key) != "obs.interaction.id" }

  lemma EntryNotEmpty(entry: string, value: string)
    requires IsEntry(entry, INTERACTION_KEY, value)
    ensures entry != ""
  {
  }

  lemma {:induction false} OthersSilent(decode: Decoder, others: seq<string>)
    requires DecodesPlainText(decode) && forall e :: e in others ==> e != "" && Trim(e) == e && OtherEntry(e)
    ensures Scan(decode, others).Absent? && Without(others, ',')
    decreases |others|
  {
    hide Split, Trim, ReadEntry, IsEntry, ActionId.ValidInteractionId;
    if others != [] {
      var e := others[0];
      assert e in others;
      var key, value :| IsEntry(e, key, value) && Trim(key) != "obs.interaction.id";
      EntryReads(decode, e, key, value);
      EntryParts(e, key, value);
      assert forall f :: f in others[1..] ==> f in others;
      OthersSilent(decode, others[1..]);
      assert others == [e] + others[1..];
    }
  }

  /** A bare key with no value is the baggage that loses the id: it keeps the pair from being
      appended, and carries nothing itself. */
  lemma {:induction false} BareKeyLosesTheId(decode: Decoder, id: string)
    ensures Read(decode, Append(INTERACTION_KEY, id)) == Absent
  {
    hide Trim, Split, Join;
    PlainKey();
    TrimNothing(INTERACTION_KEY);
    SplitOne(INTERACTION_KEY, ',');
    SplitOne(INTERACTION_KEY, '=');
    var entries := EntriesOf(INTERACTION_KEY);
    assert entries == [INTERACTION_KEY];
    assert Trim(Split(entries[0], '=')[0]) == INTERACTION_KEY;
    JoinOne(INTERACTION_KEY);
  }

  /** `parseBaggageInteractionId` as it runs. */
  method ParseBaggageInteractionId(decode: Decoder, baggage: string) returns (found: Found)
    ensures found == Read(decode, baggage)
  {
    hide Split, Trim, ParseInteraction;
    if baggage == "" { return Absent; }
    var entries := Split(baggage, ',');
    for i := 0 to |entries|
      invariant Scan(decode, entries) == Scan(decode, entries[i..])
    {
      assert entries[i..][1..] == entries[i + 1..];
      var parts := Split(Trim(entries[i]), '=');
      if parts[0] == "" || |parts| == 1 { continue; }
      var key := decode(Trim(parts[0]));
      if key.None? { return Threw; }
      if key.value != INTERACTION_KEY { continue; }
      var value := decode(Trim(parts[1]));
      if value.None? { return Threw; }
      return Value(ParseInteraction(value.value));
    }
    return Absent;
  }
}
