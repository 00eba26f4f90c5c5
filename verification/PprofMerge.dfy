/** How profiles combine: lists are appended and later map entries win. */
module PprofMerge {
  import opened Bytes
  import opened Wire
  import opened Pprof

  // ---------------------------------------------------------------- tables

  lemma FindIs<V>(m: Table<V>, key: nat, i: nat)
    requires i <= |m|
    requires i < |m| ==> m[i].0 == key
    requires forall j :: 0 <= j < i ==> m[j].0 != key
    ensures KeyIndex(m, key) == i
  {
  }

  lemma SetTwice<V>(m: Table<V>, key: nat, v: V, w: V)
    ensures Set(Set(m, key, v), key, w) == Set(m, key, w)
  {
    FindIs(Set(m, key, v), key, KeyIndex(m, key));
  }

  /** Setting one key leaves every other key where it was. */
  lemma FindAfterSet<V>(m: Table<V>, key: nat, other: nat, w: V)
    requires key != other
    requires KeyIndex(m, key) < |m| || KeyIndex(m, other) < |m|
    ensures KeyIndex(Set(m, other, w), key) == KeyIndex(m, key)
  {
    FindIs(Set(m, other, w), key, KeyIndex(m, key));
  }

  lemma SetCommutes<V>(m: Table<V>, key: nat, v: V, other: nat, w: V)
    requires key != other && KeyIndex(m, key) < |m|
    ensures Set(Set(m, other, w), key, v) == Set(Set(m, key, v), other, w)
  {
    hide KeyIndex;
    var i, j := KeyIndex(m, key), KeyIndex(m, other);
    FindAfterSet(m, key, other, w);
    FindAfterSet(m, other, key, v);
    if j < |m| {
      assert m[j := (other, w)][i := (key, v)] == m[i := (key, v)][j := (other, w)];
    } else {
      assert (m + [(other, w)])[i := (key, v)] == m[i := (key, v)] + [(other, w)];
    }
  }

  function Keys<V>(m: Table<V>): seq<nat> { seq(|m|, i requires 0 <= i < |m| => m[i].0) }

  /** What `Map.set` does: a known key keeps its place, a new one comes last; the key now holds the value
      and every other entry is as it was. */
  lemma {:induction false} SetFacts<V>(m: Table<V>, key: nat, v: V)
    requires DistinctKeys(m)
    ensures Keys(Set(m, key, v)) == if key in Keys(m) then Keys(m) else Keys(m) + [key]
    ensures forall i :: 0 <= i < |Set(m, key, v)| ==>
              Set(m, key, v)[i] == if Keys(Set(m, key, v))[i] == key then (key, v) else m[i]
  {
    hide KeyIndex;
    var i := KeyIndex(m, key);
    if i < |m| { assert Keys(m)[i] == key; }
    if key in Keys(m) {
      var j :| 0 <= j < |m| && Keys(m)[j] == key;
      assert m[j].0 == key;
    }
  }

  lemma SetDistinct<V>(m: Table<V>, key: nat, v: V)
    requires DistinctKeys(m)
    ensures DistinctKeys(Set(m, key, v))
  {
  }

  lemma SetHas<V>(m: Table<V>, key: nat, other: nat, v: V)
    requires KeyIndex(m, key) < |m|
    ensures KeyIndex(Set(m, other, v), key) < |Set(m, other, v)|
  {
    assert Set(m, other, v)[KeyIndex(m, key)].0 == key;
  }

  lemma {:induction false} SetAllHas<V>(m: Table<V>, entries: Table<V>, key: nat)
    requires KeyIndex(entries, key) < |entries|
    ensures KeyIndex(SetAll(m, entries), key) < |SetAll(m, entries)|
    decreases |entries|
  {
    var front, last := entries[..|entries| - 1], entries[|entries| - 1];
    if last.0 == key {
      var t := Set(SetAll(m, front), key, last.1);
      assert t[KeyIndex(SetAll(m, front), key)].0 == key;
    } else {
      assert front[KeyIndex(entries, key)].0 == key;
      SetAllHas(m, front, key);
      SetHas(SetAll(m, front), key, last.0, last.1);
    }
  }

  lemma {:induction false} SetAllSet<V>(m: Table<V>, entries: Table<V>, key: nat, v: V)
    requires DistinctKeys(entries)
    ensures SetAll(m, Set(entries, key, v)) == Set(SetAll(m, entries), key, v)
    decreases |entries|
  {
    var i, after := KeyIndex(entries, key), Set(entries, key, v);
    if i == |entries| {
      assert after[..|after| - 1] == entries;
    } else {
      var front, last := entries[..|entries| - 1], entries[|entries| - 1];
      if i == |entries| - 1 {
        assert after[..|after| - 1] == front;
        SetTwice(SetAll(m, front), key, last.1, v);
      } else {
        FindIs(front, key, i);
        assert after[..|after| - 1] == Set(front, key, v);
        SetAllSet(m, front, key, v);
        SetAllHas(m, front, key);
        SetCommutes(SetAll(m, front), key, v, last.0, last.1);
      }
    }
  }

  lemma {:induction false} SetAllNothing<V>(entries: Table<V>)
    requires DistinctKeys(entries)
    ensures SetAll([], entries) == entries
    decreases |entries|
  {
    if entries != [] {
      var front, last := entries[..|entries| - 1], entries[|entries| - 1];
      SetAllNothing(front);
      FindIs(front, last.0, |front|);
    }
  }

  // ---------------------------------------------------------------- profiles

  function Merge(p: Profile, q: Profile): Profile {
    Profile(p.sampleTypes + q.sampleTypes, p.samples + q.samples,
            SetAll(p.locations, q.locations), SetAll(p.functions, q.functions),
            p.stringTable + q.stringTable)
  }

  lemma MergeEmpty(p: Profile)
    requires WellFormed(p)
    ensures Merge(EMPTY, p) == p && Merge(p, EMPTY) == p
  {
    SetAllNothing(p.locations);
    SetAllNothing(p.functions);
    assert [] + p.sampleTypes == p.sampleTypes == p.sampleTypes + [];
    assert [] + p.samples == p.samples == p.samples + [];
    assert [] + p.stringTable == p.stringTable == p.stringTable + [];
  }

  lemma MergeAdd(p: Profile, q: Profile, f: ProfileField)
    requires WellFormed(q)
    ensures Merge(p, AddToProfile(q, f)) == AddToProfile(Merge(p, q), f)
  {
    match f
    case SampleTypeEntry(vt) =>
      assert p.sampleTypes + (q.sampleTypes + [vt]) == p.sampleTypes + q.sampleTypes + [vt];
    case SampleEntry(x) =>
      assert p.samples + (q.samples + [x]) == p.samples + q.samples + [x];
    case LocationEntry(l) => SetAllSet(p.locations, q.locations, l.id, l);
    case FunctionEntry(g) => SetAllSet(p.functions, q.functions, g.id, g);
    case StringEntry(bs) =>
      assert p.stringTable + (q.stringTable + [bs]) == p.stringTable + q.stringTable + [bs];
    case OtherEntry =>
  }

  /** Fields whose locations, if any, came out of the location decoder. */
  ghost predicate Consistent(fs: seq<ProfileField>) {
    forall i :: 0 <= i < |fs| && fs[i].LocationEntry? ==> ConsistentLocation(fs[i].location)
  }

  lemma AddWellFormed(p: Profile, f: ProfileField)
    requires WellFormed(p) && (f.LocationEntry? ==> ConsistentLocation(f.location))
    ensures WellFormed(AddToProfile(p, f))
  {
    match f
    case LocationEntry(l) => SetDistinct(p.locations, l.id, l);
    case FunctionEntry(g) => SetDistinct(p.functions, g.id, g);
    case _ =>
  }

  lemma {:induction false} ProfileOfWellFormed(fs: seq<ProfileField>)
    requires Consistent(fs)
    ensures WellFormed(ProfileOf(fs))
    decreases |fs|
  {
    if fs != [] {
      ProfileOfWellFormed(fs[..|fs| - 1]);
      AddWellFormed(ProfileOf(fs[..|fs| - 1]), fs[|fs| - 1]);
    }
  }

  /** Building from two runs of fields is merging the two profiles built from them. */
  lemma {:induction false} ProfileOfAppend(fs: seq<ProfileField>, gs: seq<ProfileField>)
    requires Consistent(fs) && Consistent(gs)
    ensures ProfileOf(fs + gs) == Merge(ProfileOf(fs), ProfileOf(gs))
    decreases |gs|
  {
    if gs == [] {
      assert fs + gs == fs;
      ProfileOfWellFormed(fs);
      MergeEmpty(ProfileOf(fs));
    } else {
      var front, last := gs[..|gs| - 1], gs[|gs| - 1];
      assert (fs + gs)[..|fs + gs| - 1] == fs + front;
      ProfileOfAppend(fs, front);
      ProfileOfWellFormed(front);
      MergeAdd(ProfileOf(fs), ProfileOf(front), last);
    }
  }

  // ---------------------------------------------------------------- the fields of a profile

  lemma {:induction false} OfSampleTypes(xs: seq<ValueType>)
    ensures ProfileOf(SampleTypeFields(xs)) == EMPTY.(sampleTypes := xs)
    decreases |xs|
  {
    var fs := SampleTypeFields(xs);
    if xs != [] {
      OfSampleTypes(xs[..|xs| - 1]);
      assert fs[..|fs| - 1] == SampleTypeFields(xs[..|xs| - 1]);
    }
  }

  lemma {:induction false} OfSamples(xs: seq<Sample>)
    ensures ProfileOf(SamplesFields(xs)) == EMPTY.(samples := xs)
    decreases |xs|
  {
    var fs := SamplesFields(xs);
    if xs != [] {
      OfSamples(xs[..|xs| - 1]);
      assert fs[..|fs| - 1] == SamplesFields(xs[..|xs| - 1]);
    }
  }

  lemma {:induction false} OfStrings(xs: seq<seq<byte>>)
    ensures ProfileOf(StringsFields(xs)) == EMPTY.(stringTable := xs)
    decreases |xs|
  {
    var fs := StringsFields(xs);
    if xs != [] {
      OfStrings(xs[..|xs| - 1]);
      assert fs[..|fs| - 1] == StringsFields(xs[..|xs| - 1]);
    }
  }

  lemma {:induction false} OfLocations(m: Table<Location>)
    requires DistinctKeys(m) && forall i :: 0 <= i < |m| ==> m[i].0 == m[i].1.id
    ensures ProfileOf(LocationsFields(m)) == EMPTY.(locations := m)
    decreases |m|
  {
    var fs := LocationsFields(m);
    if m != [] {
      var front := m[..|m| - 1];
      OfLocations(front);
      assert fs[..|fs| - 1] == LocationsFields(front);
      FindIs(front, m[|m| - 1].0, |front|);
    }
  }

  lemma {:induction false} OfFunctions(m: Table<Function>)
    requires DistinctKeys(m) && forall i :: 0 <= i < |m| ==> m[i].0 == m[i].1.id
    ensures ProfileOf(FunctionsFields(m)) == EMPTY.(functions := m)
    decreases |m|
  {
    var fs := FunctionsFields(m);
    if m != [] {
      var front := m[..|m| - 1];
      OfFunctions(front);
      assert fs[..|fs| - 1] == FunctionsFields(front);
      FindIs(front, m[|m| - 1].0, |front|);
    }
  }

  /** A profile is the merge of its five parts. */
  lemma MergeParts(p: Profile)
    requires WellFormed(p)
    ensures Merge(EMPTY.(sampleTypes := p.sampleTypes), EMPTY.(samples := p.samples))
         == Profile(p.sampleTypes, p.samples, [], [], [])
    ensures Merge(Profile(p.sampleTypes, p.samples, [], [], []), EMPTY.(locations := p.locations))
         == Profile(p.sampleTypes, p.samples, p.locations, [], [])
    ensures Merge(Profile(p.sampleTypes, p.samples, p.locations, [], []), EMPTY.(functions := p.functions))
         == Profile(p.sampleTypes, p.samples, p.locations, p.functions, [])
    ensures Merge(Profile(p.sampleTypes, p.samples, p.locations, p.functions, []), EMPTY.(stringTable := p.stringTable))
         == p
  {
    SetAllNothing(p.locations);
    SetAllNothing(p.functions);
    assert [] + p.samples == p.samples && [] + p.stringTable == p.stringTable;
    assert p.sampleTypes + [] == p.sampleTypes && p.samples + [] == p.samples;
  }

  lemma FieldsConsistent(p: Profile)
    requires WellFormed(p)
    ensures Consistent(ProfileFields(p))
    ensures Consistent(SampleTypeFields(p.sampleTypes)) && Consistent(SamplesFields(p.samples))
    ensures Consistent(LocationsFields(p.locations)) && Consistent(FunctionsFields(p.functions))
    ensures Consistent(StringsFields(p.stringTable))
  {
    forall i | 0 <= i < |p.locations|
      ensures ConsistentLocation(LocationsFields(p.locations)[i].location)
    {
    }
  }

  /** A well-formed profile is what its own fields build. */
  lemma {:induction false} ProfileOfFields(p: Profile)
    requires WellFormed(p)
    ensures ProfileOf(ProfileFields(p)) == p
  {
    hide ProfileOf, Merge, SampleTypeFields, SamplesFields, LocationsFields, FunctionsFields, StringsFields;
    var a, b, c, d, e := SampleTypeFields(p.sampleTypes), SamplesFields(p.samples), LocationsFields(p.locations),
                         FunctionsFields(p.functions), StringsFields(p.stringTable);
    FieldsConsistent(p);
    MergeParts(p);
    assert ProfileOf(a + b) == Profile(p.sampleTypes, p.samples, [], [], []) by {
      OfSampleTypes(p.sampleTypes);
      OfSamples(p.samples);
      ProfileOfAppend(a, b);
    }
    assert ProfileOf(a + b + c) == Profile(p.sampleTypes, p.samples, p.locations, [], []) by {
      OfLocations(p.locations);
      ProfileOfAppend(a + b, c);
    }
    assert ProfileOf(a + b + c + d) == Profile(p.sampleTypes, p.samples, p.locations, p.functions, []) by {
      OfFunctions(p.functions);
      ProfileOfAppend(a + b + c, d);
    }
    OfStrings(p.stringTable);
    ProfileOfAppend(a + b + c + d, e);
  }
}
