/** `StackProfile::to_pprof_proto` as the loops that fill the tables of the profile. */
module ProfileBuilders {
  import opened Wrappers
  import opened Bytes
  import opened StringTables
  import opened Profiles

  class ProfileBuilder {
    const mappings: seq<Mapping>
    const resolve: nat -> seq<Symbol>
    const strings: StringTable
    var location: seq<Location>
    var function_: seq<FunctionEntry>
    var locationIds: map<nat, nat>
    var functionIds: map<string, nat>
    /** The address that brought each location, and the symbol that brought each function. */
    ghost var origins: seq<nat>
    ghost var definers: seq<Symbol>

    ghost predicate Valid()
      reads this, strings
    {
      && strings.Valid()
      && FunctionsOk(strings.contents, function_, functionIds, definers)
      && LocationsOk(strings.contents, function_, mappings, resolve, location, locationIds, origins)
    }

    constructor (mappings: seq<Mapping>, resolve: nat -> seq<Symbol>, strings: StringTable)
      requires strings.Valid()
      ensures Valid() && this.strings == strings
      ensures this.mappings == mappings && this.resolve == resolve && origins == [] && definers == []
    {
      this.mappings, this.resolve, this.strings := mappings, resolve, strings;
      location, function_, locationIds, functionIds := [], [], map[], map[];
      origins, definers := [], [];
    }

    /** The strings and functions alone. */
    ghost predicate NamesValid()
      reads this, strings
    {
      strings.Valid() && FunctionsOk(strings.contents, function_, functionIds, definers)
    }

    /** The function named by the symbol, entered if its name is new. */
    method FunctionFor(symbol: Symbol) returns (id: nat)
      requires NamesValid() && symbol.name.Some?
      modifies this`function_, this`functionIds, this`definers, strings
      ensures NamesValid() && old(strings.contents) <= strings.contents && old(function_) <= function_
      ensures LineSays(strings.contents, function_, Line(id, LineNumber(symbol)), symbol)
      ensures definers == old(definers) || definers == old(definers) + [symbol]
    {
      var name := symbol.name.value;
      if name in functionIds {
        id := functionIds[name];
        KnownFunction(strings.contents, function_, functionIds, definers, name);
      } else {
        id := |function_| + 1;
        var f := AddFunctionNames(strings, id, symbol);
        FunctionsOkGrows(old(strings.contents), strings.contents, function_, functionIds, definers);
        FunctionsOkAdd(strings.contents, function_, functionIds, definers, f, symbol);
        function_ := function_ + [f];
        functionIds := functionIds[name := id];
        definers := definers + [symbol];
      }
    }

    /** The line of a named symbol. */
    method LineFor(symbol: Symbol) returns (line: Line)
      requires NamesValid() && symbol.name.Some?
      modifies this`function_, this`functionIds, this`definers, strings
      ensures NamesValid() && old(strings.contents) <= strings.contents && old(function_) <= function_
      ensures LineSays(strings.contents, function_, line, symbol)
      ensures definers == old(definers) || definers == old(definers) + [symbol]
    {
      var id := FunctionFor(symbol);
      line := Line(id, LineNumber(symbol));
    }

    /** One line for each named symbol of the address. */
    method LinesFor(addr: nat) returns (lines: seq<Line>)
      requires NamesValid()
      modifies this`function_, this`functionIds, this`definers, strings
      ensures NamesValid() && old(strings.contents) <= strings.contents && old(function_) <= function_
      ensures LinesSay(strings.contents, function_, lines, Named(resolve(addr)))
      ensures Joined(old(definers), definers, resolve(addr))
    {
      lines := [];
      var symbols := resolve(addr);
      for k := 0 to |symbols|
        invariant NamesValid() && old(strings.contents) <= strings.contents && old(function_) <= function_
        invariant LinesSay(strings.contents, function_, lines, Named(symbols[..k]))
        invariant Joined(old(definers), definers, symbols)
      {
        NamedStep(symbols, k);
        var symbol := symbols[k];
        if symbol.name.Some? {
          ghost var was, functions := strings.contents, function_;
          var line := LineFor(symbol);
          LinesSayAdd(was, functions, strings.contents, function_, lines, Named(symbols[..k]), line, symbol);
          lines := lines + [line];
        }
      }
      assert symbols[..|symbols|] == symbols;
    }

    /** Enters a location for a file-relative address that has none. */
    method NewLocation(addr: nat, address: nat) returns (id: nat)
      requires Valid() && address == Translate(mappings, addr) && address !in locationIds
      modifies this, strings
      ensures Valid() && old(strings.contents) <= strings.contents
      ensures |location| == |old(location)| + 1 && old(location) <= location
      ensures id == |location| && location[id - 1].address == address
      ensures origins == old(origins) + [addr] && Joined(old(definers), definers, resolve(addr))
    {
      id := |location| + 1;
      var lines := LinesFor(addr);
      var l := Location(id, MappingIdOf(mappings, addr), address, lines);
      LocationsOkGrows(old(strings.contents), old(function_), strings.contents, function_,
                       mappings, resolve, location, locationIds, origins);
      LocationsOkAdd(strings.contents, function_, mappings, resolve, location, locationIds, origins, l, addr);
      location := location + [l];
      locationIds := locationIds[address := id];
      origins := origins + [addr];
    }

    /** The location of an address, entered if its file-relative address is new. */
    method LocationFor(addr: nat) returns (id: nat)
      requires Valid()
      modifies this, strings
      ensures Valid()
      ensures old(strings.contents) <= strings.contents && old(location) <= location
      ensures FrameAt(location, mappings, id, addr)
      ensures origins == old(origins) || origins == old(origins) + [addr]
      ensures Joined(old(definers), definers, resolve(addr))
    {
      var address := Translate(mappings, addr);
      if address in locationIds {
        id := locationIds[address];
      } else {
        id := NewLocation(addr, address);
      }
    }

    /** The label of one frame. */
    method LabelsFor(anno: Option<string>, annoKey: string) returns (labels: seq<Label>)
      requires Valid()
      modifies strings
      ensures Valid() && old(strings.contents) <= strings.contents
      ensures |labels| == (if anno.Some? then 1 else 0)
      ensures anno.Some? ==> LabelSays(strings.contents, labels[0], annoKey, anno.value)
    {
      labels := [];
      if anno.Some? {
        var key := strings.Insert(annoKey);
        var str := strings.Insert(anno.value);
        labels := [Label(key, str)];
        FunctionsOkGrows(old(strings.contents), strings.contents, function_, functionIds, definers);
        LocationsOkGrows(old(strings.contents), function_, strings.contents, function_,
                         mappings, resolve, location, locationIds, origins);
      }
    }

    /** The reference and the label of one frame. */
    method ReferTo(addr: nat, anno: Option<string>, annoKey: string, ghost shown: set<nat>)
      returns (id: nat, labels: seq<Label>)
      requires Valid() && BroughtBy(origins, definers, resolve, shown)
      modifies this, strings
      ensures Valid() && BroughtBy(origins, definers, resolve, shown + {addr})
      ensures old(strings.contents) <= strings.contents && old(location) <= location
      ensures FrameAt(location, mappings, id, addr)
      ensures |labels| == (if anno.Some? then 1 else 0)
      ensures anno.Some? ==> LabelSays(strings.contents, labels[0], annoKey, anno.value)
    {
      id := LocationFor(addr);
      BroughtByAdd(old(origins), old(definers), origins, definers, resolve, shown, addr);
      labels := LabelsFor(anno, annoKey);
    }

    method AddFrame(sample: Sample, addr: nat, anno: Option<string>, annoKey: string, ghost frames: seq<nat>,
                    ghost shown: set<nat>)
      returns (sample': Sample, ghost frames': seq<nat>, ghost shown': set<nat>)
      requires Valid() && BroughtBy(origins, definers, resolve, shown)
      requires SampleSays(strings.contents, location, mappings, frames, sample, sample.value, annoKey, anno)
      modifies this, strings
      ensures frames' == frames + (if Kept(resolve, addr) then [addr] else [])
      ensures shown' == shown + (if Kept(resolve, addr) then {addr} else {})
      ensures Valid() && BroughtBy(origins, definers, resolve, shown')
      ensures old(strings.contents) <= strings.contents && old(location) <= location
      ensures sample'.value == sample.value
      ensures SampleSays(strings.contents, location, mappings, frames', sample', sample.value, annoKey, anno)
    {
      sample', frames', shown' := sample, frames, shown;
      if Kept(resolve, addr) {
        var id, labels := ReferTo(addr, anno, annoKey, shown);
        SampleSaysGrows(old(strings.contents), old(location), strings.contents, location,
                        mappings, frames, sample, sample.value, annoKey, anno);
        SampleSaysAdd(strings.contents, location, mappings, frames, sample, sample.value, annoKey, anno, id, addr,
                      labels);
        sample' := Sample(sample.locationId + [id], sample.value, sample.labels + labels);
        frames', shown' := frames + [addr], shown + {addr};
      }
    }

    method AddSample(stack: WeightedStack, anno: Option<string>, annoKey: string, ghost earlier: set<nat>)
      returns (sample: Sample)
      requires Valid() && BroughtBy(origins, definers, resolve, earlier)
      modifies this, strings
      ensures Valid() && BroughtBy(origins, definers, resolve, earlier + Shown(Frames(resolve, stack.addrs)))
      ensures old(strings.contents) <= strings.contents && old(location) <= location
      ensures SampleSays(strings.contents, location, mappings, Frames(resolve, stack.addrs), sample, stack.values,
                         annoKey, anno)
    {
      sample := Sample([], stack.values, []);
      var addrs := stack.addrs;
      ghost var frames, shown := [], earlier;
      for k := 0 to |addrs|
        invariant Valid() && BroughtBy(origins, definers, resolve, shown)
        invariant old(strings.contents) <= strings.contents && old(location) <= location
        invariant frames == Frames(resolve, addrs[..k]) && shown == earlier + Shown(frames)
        invariant sample.value == stack.values
        invariant SampleSays(strings.contents, location, mappings, frames, sample, stack.values, annoKey, anno)
      {
        FramesNext(resolve, addrs, k);
        ShownAdd(frames, addrs[k]);
        sample, frames, shown := AddFrame(sample, addrs[k], anno, annoKey, frames, shown);
      }
      assert addrs[..|addrs|] == addrs;
    }
  }

  method AddFunctionNames(strings: StringTable, id: nat, symbol: Symbol) returns (f: FunctionEntry)
    requires strings.Valid() && symbol.name.Some?
    modifies strings
    ensures strings.Valid() && old(strings.contents) <= strings.contents
    ensures f.id == id && FunctionSays(strings.contents, f, symbol)
  {
    var name := strings.Insert(symbol.name.value);
    var systemName := strings.Insert(symbol.systemName);
    var filename := strings.Insert(Filename(symbol));
    f := FunctionEntry(id, name, systemName, filename);
  }

  // ---------- the finished profile ----------

  predicate TypeSays(strings: seq<string>, v: ValueType, t: (string, string)) {
    Says(strings, v.typ, t.0) && Says(strings, v.unit, t.1)
  }

  predicate MappingSays(strings: seq<string>, e: MappingEntry, m: Mapping, k: nat) {
    e.id == k + 1 && Says(strings, e.filename, m.pathname)
    && Says(strings, e.buildId, if m.buildId.Some? then BuildIdText(m.buildId.value) else "")
  }

  function Annotation(input: StackProfile, k: nat): Option<string>
    requires k < |input.stacks|
    requires input.stacks[k].1.Some? ==> input.stacks[k].1.value < |input.annotations|
  {
    if input.stacks[k].1.Some? then Some(input.annotations[input.stacks[k].1.value]) else None
  }

  /** The annotations named by the stacks exist. */
  predicate WellFormed(input: StackProfile) {
    forall k | 0 <= k < |input.stacks| :: input.stacks[k].1.Some? ==> input.stacks[k].1.value < |input.annotations|
  }

  /** The frames that the first `n` stacks show. */
  function AllFrames(input: StackProfile, resolve: nat -> seq<Symbol>, n: nat): set<nat>
    requires n <= |input.stacks|
  {
    if n == 0 then {} else AllFrames(input, resolve, n - 1) + Shown(Frames(resolve, input.stacks[n - 1].0.addrs))
  }

  ghost predicate SamplesDecode(strings: seq<string>, locations: seq<Location>, samples: seq<Sample>,
                                input: StackProfile,
                                resolve: nat -> seq<Symbol>, key: string)
    requires WellFormed(input) && |samples| <= |input.stacks|
  {
    forall k :: 0 <= k < |samples| ==>
      SampleSays(strings, locations, input.mappings, Frames(resolve, input.stacks[k].0.addrs), samples[k],
                 input.stacks[k].0.values, key, Annotation(input, k))
  }

  datatype Header = Header(types: seq<ValueType>, periodType: ValueType, defaultType: nat, mappings: seq<MappingEntry>)

  /** The tables' fixed part names the sample types, the period and the mappings. */
  ghost predicate HeaderDecodes(strings: seq<string>, h: Header, types: seq<(string, string)>,
                                periodType: (string, string),
                                mappings: seq<Mapping>)
    requires types != []
  {
    && |h.types| == |types| && (forall k :: 0 <= k < |types| ==> TypeSays(strings, h.types[k], types[k]))
    && TypeSays(strings, h.periodType, periodType)
    && Says(strings, h.defaultType, types[|types| - 1].0)
    && |h.mappings| == |mappings|
       && (forall k :: 0 <= k < |mappings| ==> MappingSays(strings, h.mappings[k], mappings[k], k))
  }

  lemma HeaderGrows(strings: seq<string>, strings': seq<string>, h: Header, types: seq<(string, string)>,
                    periodType: (string, string), mappings: seq<Mapping>)
    requires strings <= strings' && types != [] && HeaderDecodes(strings, h, types, periodType, mappings)
    ensures HeaderDecodes(strings', h, types, periodType, mappings)
  {
    forall k | 0 <= k < |types| ensures TypeSays(strings', h.types[k], types[k]) {
      assert TypeSays(strings, h.types[k], types[k]);
    }
    forall k | 0 <= k < |mappings| ensures MappingSays(strings', h.mappings[k], mappings[k], k) {
      assert MappingSays(strings, h.mappings[k], mappings[k], k);
    }
  }

  lemma SamplesGrow(strings: seq<string>, locations: seq<Location>, strings': seq<string>, locations': seq<Location>,
                    samples: seq<Sample>, input: StackProfile, resolve: nat -> seq<Symbol>, key: string)
    requires strings <= strings' && locations <= locations' && WellFormed(input) && |samples| <= |input.stacks|
    requires SamplesDecode(strings, locations, samples, input, resolve, key)
    ensures SamplesDecode(strings', locations', samples, input, resolve, key)
  {
    forall k | 0 <= k < |samples|
      ensures SampleSays(strings', locations', input.mappings, Frames(resolve, input.stacks[k].0.addrs), samples[k],
                         input.stacks[k].0.values, key, Annotation(input, k))
    {
      SampleSaysGrows(strings, locations, strings', locations', input.mappings,
                      Frames(resolve, input.stacks[k].0.addrs),
                      samples[k], input.stacks[k].0.values, key, Annotation(input, k));
    }
  }

  predicate ProperStrings(strings: seq<string>) {
    strings != [] && strings[0] == "" && forall j, k :: 0 <= j < k < |strings| ==> strings[j] != strings[k]
  }

  /** Everything the profile stores resolves to what it was built from. */
  ghost predicate Decodes(p: Profile, input: StackProfile, resolve: nat -> seq<Symbol>, types: seq<(string, string)>,
                          periodType: (string, string), key: string, origins: seq<nat>, definers: seq<Symbol>)
    requires WellFormed(input) && types != []
  {
    && ProperStrings(p.stringTable)
    && HeaderDecodes(p.stringTable, Header(p.sampleType, p.periodType, p.defaultSampleType, p.mapping),
                     types, periodType, input.mappings)
    && (exists ids :: FunctionsOk(p.stringTable, p.function_, ids, definers))
    && (exists ids :: LocationsOk(p.stringTable, p.function_, input.mappings, resolve, p.location, ids, origins))
    && BroughtBy(origins, definers, resolve, AllFrames(input, resolve, |input.stacks|))
    && |p.sample| == |input.stacks|
    && SamplesDecode(p.stringTable, p.location, p.sample, input, resolve, key)
  }

  method AddType(strings: StringTable, t: (string, string)) returns (entry: ValueType)
    requires strings.Valid()
    modifies strings
    ensures strings.Valid() && old(strings.contents) <= strings.contents && TypeSays(strings.contents, entry, t)
  {
    var typ := strings.Insert(t.0);
    var unit := strings.Insert(t.1);
    entry := ValueType(typ, unit);
  }

  method AddTypes(strings: StringTable, types: seq<(string, string)>) returns (entries: seq<ValueType>)
    requires strings.Valid()
    modifies strings
    ensures strings.Valid() && old(strings.contents) <= strings.contents && |entries| == |types|
    ensures forall k :: 0 <= k < |types| ==> TypeSays(strings.contents, entries[k], types[k])
  {
    entries := [];
    for k := 0 to |types|
      invariant strings.Valid() && old(strings.contents) <= strings.contents && |entries| == k
      invariant forall j :: 0 <= j < k ==> TypeSays(strings.contents, entries[j], types[j])
    {
      ghost var was := strings.contents;
      var entry := AddType(strings, types[k]);
      forall j | 0 <= j < k ensures TypeSays(strings.contents, entries[j], types[j]) {
        assert TypeSays(was, entries[j], types[j]);
      }
      entries := entries + [entry];
    }
  }

  method AddMapping(strings: StringTable, m: Mapping, k: nat) returns (entry: MappingEntry)
    requires strings.Valid()
    modifies strings
    ensures strings.Valid() && old(strings.contents) <= strings.contents
    ensures MappingSays(strings.contents, entry, m, k)
  {
    var filename := strings.Insert(m.pathname);
    var buildId := 0;
    if m.buildId.Some? {
      buildId := strings.Insert(BuildIdText(m.buildId.value));
    }
    entry := MappingEntry(k + 1, filename, buildId);
  }

  method AddMappings(strings: StringTable, mappings: seq<Mapping>) returns (entries: seq<MappingEntry>)
    requires strings.Valid()
    modifies strings
    ensures strings.Valid() && old(strings.contents) <= strings.contents && |entries| == |mappings|
    ensures forall k :: 0 <= k < |mappings| ==> MappingSays(strings.contents, entries[k], mappings[k], k)
  {
    entries := [];
    for k := 0 to |mappings|
      invariant strings.Valid() && old(strings.contents) <= strings.contents && |entries| == k
      invariant forall j :: 0 <= j < k ==> MappingSays(strings.contents, entries[j], mappings[j], j)
    {
      ghost var was := strings.contents;
      var entry := AddMapping(strings, mappings[k], k);
      forall j | 0 <= j < k ensures MappingSays(strings.contents, entries[j], mappings[j], j) {
        assert MappingSays(was, entries[j], mappings[j], j);
      }
      entries := entries + [entry];
    }
  }

  lemma TypesGrow(strings: seq<string>, strings': seq<string>, entries: seq<ValueType>, types: seq<(string, string)>)
    requires strings <= strings' && |entries| == |types|
    requires forall k :: 0 <= k < |types| ==> TypeSays(strings, entries[k], types[k])
    ensures forall k :: 0 <= k < |types| ==> TypeSays(strings', entries[k], types[k])
  {
    forall k | 0 <= k < |types| ensures TypeSays(strings', entries[k], types[k]) {
      assert TypeSays(strings, entries[k], types[k]);
    }
  }

  method BuildHeader(strings: StringTable, mappings: seq<Mapping>, types: seq<(string, string)>,
                     periodType: (string, string))
    returns (h: Header)
    requires strings.Valid() && types != []
    modifies strings
    ensures strings.Valid() && HeaderDecodes(strings.contents, h, types, periodType, mappings)
  {
    var entries := AddTypes(strings, types);
    ghost var s1 := strings.contents;
    var period := AddType(strings, periodType);
    var defaultType := strings.Insert(types[|types| - 1].0);
    ghost var s2 := strings.contents;
    var mappingEntries := AddMappings(strings, mappings);
    TypesGrow(s1, strings.contents, entries, types);
    h := Header(entries, period, defaultType, mappingEntries);
  }

  lemma SamplesAdd(strings: seq<string>, locations: seq<Location>, samples: seq<Sample>, sample: Sample,
                   input: StackProfile,
                   resolve: nat -> seq<Symbol>, key: string)
    requires WellFormed(input) && |samples| < |input.stacks|
    requires SamplesDecode(strings, locations, samples, input, resolve, key)
    requires var k := |samples|;
             SampleSays(strings, locations, input.mappings, Frames(resolve, input.stacks[k].0.addrs), sample,
                        input.stacks[k].0.values, key, Annotation(input, k))
    ensures SamplesDecode(strings, locations, samples + [sample], input, resolve, key)
  {
    forall k | 0 <= k < |samples| + 1
      ensures SampleSays(strings, locations, input.mappings, Frames(resolve, input.stacks[k].0.addrs),
                         (samples + [sample])[k],
                         input.stacks[k].0.values, key, Annotation(input, k))
    {
      if k < |samples| { assert (samples + [sample])[k] == samples[k]; }
    }
  }

  method BuildSample(b: ProfileBuilder, input: StackProfile, key: string, k: nat, ghost samples: seq<Sample>)
    returns (sample: Sample)
    requires b.Valid() && WellFormed(input) && b.mappings == input.mappings && k == |samples| < |input.stacks|
    requires BroughtBy(b.origins, b.definers, b.resolve, AllFrames(input, b.resolve, k))
    requires SamplesDecode(b.strings.contents, b.location, samples, input, b.resolve, key)
    modifies b, b.strings
    ensures b.Valid() && old(b.strings.contents) <= b.strings.contents
    ensures BroughtBy(b.origins, b.definers, b.resolve, AllFrames(input, b.resolve, k + 1))
    ensures SamplesDecode(b.strings.contents, b.location, samples + [sample], input, b.resolve, key)
  {
    sample := b.AddSample(input.stacks[k].0, Annotation(input, k), key, AllFrames(input, b.resolve, k));
    SamplesGrow(old(b.strings.contents), old(b.location), b.strings.contents, b.location, samples, input, b.resolve,
                key);
    SamplesAdd(b.strings.contents, b.location, samples, sample, input, b.resolve, key);
  }

  method BuildSamples(b: ProfileBuilder, input: StackProfile, key: string) returns (samples: seq<Sample>)
    requires b.Valid() && WellFormed(input) && b.mappings == input.mappings && b.origins == [] && b.definers == []
    modifies b, b.strings
    ensures b.Valid() && old(b.strings.contents) <= b.strings.contents
    ensures BroughtBy(b.origins, b.definers, b.resolve, AllFrames(input, b.resolve, |input.stacks|))
    ensures |samples| == |input.stacks|
    ensures SamplesDecode(b.strings.contents, b.location, samples, input, b.resolve, key)
  {
    samples := [];
    for k := 0 to |input.stacks|
      invariant b.Valid() && old(b.strings.contents) <= b.strings.contents
      invariant BroughtBy(b.origins, b.definers, b.resolve, AllFrames(input, b.resolve, k))
      invariant |samples| == k
      invariant SamplesDecode(b.strings.contents, b.location, samples, input, b.resolve, key)
    {
      var sample := BuildSample(b, input, key, k, samples);
      samples := samples + [sample];
    }
  }

  /** The whole conversion. `origins` and `definers` tell which frame brought each location
      and which symbol each function. */
  method ToPprofProto(input: StackProfile, resolve: nat -> seq<Symbol>, types: seq<(string, string)>,
                      periodType: (string, string), period: int, annoKey: Option<string>, now: int)
    returns (p: Profile, ghost origins: seq<nat>, ghost definers: seq<Symbol>)
    requires types != [] && WellFormed(input)
    requires forall k | 0 <= k < |input.stacks| :: |input.stacks[k].0.values| == |types|
    ensures Decodes(p, input, resolve, types, periodType,
                    if annoKey.Some? then annoKey.value else "annotation", origins, definers)
    ensures p.period == period && p.timeNanos == now
  {
    var key := if annoKey.Some? then annoKey.value else "annotation";
    var strings := new StringTable();
    var h := BuildHeader(strings, input.mappings, types, periodType);
    ghost var s1 := strings.contents;
    var b := new ProfileBuilder(input.mappings, resolve, strings);
    var samples := BuildSamples(b, input, key);
    HeaderGrows(s1, b.strings.contents, h, types, periodType, input.mappings);
    var table := b.strings.Finish();
    p := Profile(h.types, samples, h.mappings, b.location, b.function_, table, now, h.periodType, period,
                 h.defaultType);
    origins, definers := b.origins, b.definers;
    TableProper(b.strings);
  }

  lemma TableProper(strings: StringTable)
    requires strings.Valid()
    ensures ProperStrings(strings.contents)
  {
    forall j, k | 0 <= j < k < |strings.contents| ensures strings.contents[j] != strings.contents[k] {
      assert strings.indices[strings.contents[j]] == j;
    }
  }

  // ---------- what a reader of the profile can rely on ----------

  /** A frame's reference is the one id of its file-relative address. */
  lemma FrameIsNumbered(locations: seq<Location>, byAddress: map<nat, nat>, mappings: seq<Mapping>, id: nat, addr: nat)
    requires Numbered(locations, byAddress) && FrameAt(locations, mappings, id, addr)
    ensures locations[id - 1].id == id
    ensures Translate(mappings, addr) in byAddress && byAddress[Translate(mappings, addr)] == id
  {
  }

  /** Each frame of a stack is shown at the location its reference names. */
  ghost predicate StackPlaced(locations: seq<Location>, mappings: seq<Mapping>, ids: seq<nat>, frames: seq<nat>) {
    |ids| == |frames| && forall j :: 0 <= j < |frames| ==> FrameAt(locations, mappings, ids[j], frames[j])
  }

  lemma StackIsPlaced(p: Profile, input: StackProfile, resolve: nat -> seq<Symbol>, types: seq<(string, string)>,
                      periodType: (string, string), key: string, origins: seq<nat>, definers: seq<Symbol>, k: nat)
    requires WellFormed(input) && types != []
    requires Decodes(p, input, resolve, types, periodType, key, origins, definers) && k < |input.stacks|
    ensures StackPlaced(p.location, input.mappings, p.sample[k].locationId, Frames(resolve, input.stacks[k].0.addrs))
    ensures p.sample[k].value == input.stacks[k].0.values
  {
    assert SampleSays(p.stringTable, p.location, input.mappings, Frames(resolve, input.stacks[k].0.addrs), p.sample[k],
                      input.stacks[k].0.values, key, Annotation(input, k));
  }

  lemma LocationsNumbered(p: Profile, input: StackProfile, resolve: nat -> seq<Symbol>, types: seq<(string, string)>,
                          periodType: (string, string), key: string, origins: seq<nat>, definers: seq<Symbol>)
    returns (byAddress: map<nat, nat>)
    requires WellFormed(input) && types != []
    requires Decodes(p, input, resolve, types, periodType, key, origins, definers)
    ensures Numbered(p.location, byAddress)
  {
    byAddress :| LocationsOk(p.stringTable, p.function_, input.mappings, resolve, p.location, byAddress, origins);
  }

  /** Looking up a sample's location ids gives back, from leaf to root, exactly the stack's
      non-zero frames outside the profiler, each at its place in its file, or as it is when no
      mapping contains it. Location ids run from 1 to n, one for each address shown. */
  lemma StacksDecode(p: Profile, input: StackProfile, resolve: nat -> seq<Symbol>, types: seq<(string, string)>,
                     periodType: (string, string), key: string, origins: seq<nat>, definers: seq<Symbol>, k: nat)
    returns (at: seq<nat>)
    requires WellFormed(input) && types != []
    requires Decodes(p, input, resolve, types, periodType, key, origins, definers) && k < |input.stacks|
    ensures var addrs, ids := input.stacks[k].0.addrs, p.sample[k].locationId;
            && Places(at, |addrs|) && |ids| == |at| && p.sample[k].value == input.stacks[k].0.values
            && (forall i: nat | i < |addrs| :: i in at <==> !Hidden(resolve, addrs[i]))
            && (forall j | 0 <= j < |ids| ::
                  && 1 <= ids[j] <= |p.location| && p.location[ids[j] - 1].id == ids[j]
                  && ShownAt(input.mappings, addrs[at[j]], p.location[ids[j] - 1].address))
    ensures forall i, j | 0 <= i < |p.location| && 0 <= j < |p.location|
            && p.location[i].address == p.location[j].address ::
              i == j
  {
    hide Translate, ShownAt;
    var addrs, ids := input.stacks[k].0.addrs, p.sample[k].locationId;
    var frames := Frames(resolve, addrs);
    at := FramesMean(resolve, addrs);
    StackIsPlaced(p, input, resolve, types, periodType, key, origins, definers, k);
    var byAddress := LocationsNumbered(p, input, resolve, types, periodType, key, origins, definers);
    forall j | 0 <= j < |ids|
      ensures 1 <= ids[j] <= |p.location| && p.location[ids[j] - 1].id == ids[j]
      ensures ShownAt(input.mappings, addrs[at[j]], p.location[ids[j] - 1].address)
    {
      assert FrameAt(p.location, input.mappings, ids[j], frames[j]);
      FrameIsNumbered(p.location, byAddress, input.mappings, ids[j], frames[j]);
      TranslateMeans(input.mappings, frames[j]);
    }
    NumberedApart(p.location, byAddress);
  }

  /** Two frames share a location exactly if their translations agree. */
  lemma FramesShare(p: Profile, input: StackProfile, resolve: nat -> seq<Symbol>, types: seq<(string, string)>,
                    periodType: (string, string), key: string, origins: seq<nat>, definers: seq<Symbol>, k: nat)
    requires WellFormed(input) && types != []
    requires Decodes(p, input, resolve, types, periodType, key, origins, definers) && k < |input.stacks|
    ensures var frames, ids := Frames(resolve, input.stacks[k].0.addrs), p.sample[k].locationId;
            && |ids| == |frames|
            && (forall i, j | 0 <= i < |ids| && 0 <= j < |ids| ::
                  ids[i] == ids[j] <==> Translate(input.mappings, frames[i]) == Translate(input.mappings, frames[j]))
  {
    var frames, ids := Frames(resolve, input.stacks[k].0.addrs), p.sample[k].locationId;
    hide *;
    StackIsPlaced(p, input, resolve, types, periodType, key, origins, definers, k);
    var byAddress := LocationsNumbered(p, input, resolve, types, periodType, key, origins, definers);
    PlacedShare(p.location, byAddress, input.mappings, ids, frames);
  }

  lemma PlacedShare(locations: seq<Location>, byAddress: map<nat, nat>, mappings: seq<Mapping>, ids: seq<nat>,
                    frames: seq<nat>)
    requires Numbered(locations, byAddress) && StackPlaced(locations, mappings, ids, frames)
    ensures |ids| == |frames|
    ensures forall i, j | 0 <= i < |ids| && 0 <= j < |ids| ::
              ids[i] == ids[j] <==> Translate(mappings, frames[i]) == Translate(mappings, frames[j])
  {
    hide Translate;
    forall j | 0 <= j < |ids|
      ensures FrameAt(locations, mappings, ids[j], frames[j])
      ensures Translate(mappings, frames[j]) in byAddress && byAddress[Translate(mappings, frames[j])] == ids[j]
    {
      FrameIsNumbered(locations, byAddress, mappings, ids[j], frames[j]);
    }
  }

  lemma NumberedApart(locations: seq<Location>, byAddress: map<nat, nat>)
    requires Numbered(locations, byAddress)
    ensures forall i, j | 0 <= i < |locations| && 0 <= j < |locations|
            && locations[i].address == locations[j].address ::
              i == j
  {
    forall i, j | 0 <= i < |locations| && 0 <= j < |locations| && locations[i].address == locations[j].address
      ensures i == j
    {
      assert byAddress[locations[i].address] == i + 1 && byAddress[locations[j].address] == j + 1;
    }
  }

  /** Every location stands for a frame of some stack that is not hidden: it shows the frame's
      address, in the first mapping that contains it or in none. */
  lemma LocationsDecode(p: Profile, input: StackProfile, resolve: nat -> seq<Symbol>, types: seq<(string, string)>,
                        periodType: (string, string), key: string, origins: seq<nat>, definers: seq<Symbol>, l: nat)
    returns (k: nat, i: nat)
    requires WellFormed(input) && types != []
    requires Decodes(p, input, resolve, types, periodType, key, origins, definers) && l < |p.location|
    ensures |origins| == |p.location| && k < |input.stacks| && i < |input.stacks[k].0.addrs|
    ensures var a := input.stacks[k].0.addrs[i];
            && a == origins[l] && !Hidden(resolve, a)
            && ShownAt(input.mappings, a, p.location[l].address)
            && ShownIn(input.mappings, a, p.location[l].mappingId)
  {
    OriginsShown(p, input, resolve, types, periodType, key, origins, definers, l);
    k, i := PlaceOfFrame(input, resolve, origins[l]);
    TranslateMeans(input.mappings, origins[l]);
    MappingIdMeans(input.mappings, origins[l]);
  }

  lemma PlaceOfFrame(input: StackProfile, resolve: nat -> seq<Symbol>, a: nat) returns (k: nat, i: nat)
    requires a in AllFrames(input, resolve, |input.stacks|)
    ensures k < |input.stacks| && i < |input.stacks[k].0.addrs| && input.stacks[k].0.addrs[i] == a
            && !Hidden(resolve, a)
  {
    var j;
    k, j := FrameOfStack(input, resolve, |input.stacks|, a);
    var at := FramesMean(resolve, input.stacks[k].0.addrs);
    i := at[j];
  }

  /** Every function is described by a symbol, with a name, of some frame that is not hidden; the
      functions are numbered from 1 and no two have one name. */
  lemma FunctionsDecode(p: Profile, input: StackProfile, resolve: nat -> seq<Symbol>, types: seq<(string, string)>,
                        periodType: (string, string), key: string, origins: seq<nat>, definers: seq<Symbol>, f: nat)
    returns (k: nat, i: nat, symbol: Symbol)
    requires WellFormed(input) && types != []
    requires Decodes(p, input, resolve, types, periodType, key, origins, definers) && f < |p.function_|
    ensures k < |input.stacks| && i < |input.stacks[k].0.addrs| && !Hidden(resolve, input.stacks[k].0.addrs[i])
    ensures symbol in resolve(input.stacks[k].0.addrs[i]) && symbol.name.Some?
    ensures var entry, strings := p.function_[f], p.stringTable;
            && entry.id == f + 1
            && entry.name < |strings| && strings[entry.name] == symbol.name.value
            && entry.systemName < |strings| && strings[entry.systemName] == symbol.systemName
            && entry.filename < |strings|
            && strings[entry.filename] == if symbol.filename.Some? then symbol.filename.value else ""
    ensures forall g: nat | g < |p.function_| && p.function_[g].name == p.function_[f].name :: g == f
  {
    var byName :| FunctionsOk(p.stringTable, p.function_, byName, definers);
    symbol := definers[f];
    assert FunctionSays(p.stringTable, p.function_[f], symbol);
    assert DefinedBy(symbol, resolve, AllFrames(input, resolve, |input.stacks|));
    var a :| a in AllFrames(input, resolve, |input.stacks|) && symbol in resolve(a);
    k, i := PlaceOfFrame(input, resolve, a);
    forall g: nat | g < |p.function_| && p.function_[g].name == p.function_[f].name ensures g == f {
      assert FunctionSays(p.stringTable, p.function_[g], definers[g]);
      assert NameNumbered(byName, definers[g], g + 1) && NameNumbered(byName, definers[f], f + 1);
    }
  }

  /** Every frame shown carries the stack's annotation, if it has one, under the key. */
  lemma LabelsDecode(p: Profile, input: StackProfile, resolve: nat -> seq<Symbol>, types: seq<(string, string)>,
                     periodType: (string, string), key: string, origins: seq<nat>, definers: seq<Symbol>, k: nat,
                     j: nat)
    requires WellFormed(input) && types != []
    requires Decodes(p, input, resolve, types, periodType, key, origins, definers) && k < |input.stacks|
    ensures |p.sample[k].labels| == if input.stacks[k].1.Some? then |p.sample[k].locationId| else 0
    ensures j < |p.sample[k].labels| ==>
              var tag, strings := p.sample[k].labels[j], p.stringTable;
              && tag.key < |strings| && strings[tag.key] == key
              && tag.str < |strings| && strings[tag.str] == input.annotations[input.stacks[k].1.value]
  {
    assert SampleSays(p.stringTable, p.location, input.mappings, Frames(resolve, input.stacks[k].0.addrs), p.sample[k],
                      input.stacks[k].0.values, key, Annotation(input, k));
    if j < |p.sample[k].labels| {
      assert LabelSays(p.stringTable, p.sample[k].labels[j], key, Annotation(input, k).value);
    }
  }

  /** The fixed part of the profile: its types, its period, and its mappings with their build ids
      as text. */
  lemma HeaderMeans(p: Profile, input: StackProfile, resolve: nat -> seq<Symbol>, types: seq<(string, string)>,
                    periodType: (string, string), key: string, origins: seq<nat>, definers: seq<Symbol>, t: nat, m: nat)
    requires WellFormed(input) && types != []
    requires Decodes(p, input, resolve, types, periodType, key, origins, definers)
    ensures |p.sampleType| == |types| && |p.mapping| == |input.mappings|
    ensures var strings := p.stringTable;
            && strings != [] && strings[0] == ""
            && (t < |types| ==>
                  var v := p.sampleType[t];
                  v.typ < |strings| && strings[v.typ] == types[t].0 && v.unit < |strings|
                    && strings[v.unit] == types[t].1)
            && p.periodType.typ < |strings| && strings[p.periodType.typ] == periodType.0
            && p.periodType.unit < |strings| && strings[p.periodType.unit] == periodType.1
            && p.defaultSampleType < |strings| && strings[p.defaultSampleType] == types[|types| - 1].0
            && (m < |input.mappings| ==>
                  var e, of := p.mapping[m], input.mappings[m];
                  && e.id == m + 1 && e.filename < |strings| && strings[e.filename] == of.pathname
                  && e.buildId < |strings|
                  && strings[e.buildId] == if of.buildId.Some? then BuildIdText(of.buildId.value) else "")
  {
    if t < |types| { assert TypeSays(p.stringTable, p.sampleType[t], types[t]); }
    if m < |input.mappings| { assert MappingSays(p.stringTable, p.mapping[m], input.mappings[m], m); }
  }

  /** No two frames of the profile in different mappings translate to the same address. */
  ghost predicate InjectiveAcrossMappings(input: StackProfile, resolve: nat -> seq<Symbol>) {
    var shown := AllFrames(input, resolve, |input.stacks|);
    forall a, b :: a in shown && b in shown && Translate(input.mappings, a) == Translate(input.mappings, b) ==>
      MappingIdOf(input.mappings, a) == MappingIdOf(input.mappings, b)
  }

  /** The mapping shown for a frame is the first one that contains it. */
  ghost predicate MappingsNamed(p: Profile, input: StackProfile, shown: set<nat>) {
    forall a, k :: a in shown && 0 <= k < |p.location| && p.location[k].address == Translate(input.mappings, a) ==>
      p.location[k].mappingId == MappingIdOf(input.mappings, a)
  }

  /** Two mappings at the start of their files, and one stack with a frame at the same place in each. */
  function SharedTranslation(): StackProfile {
    StackProfile([], [(WeightedStack([0x1100, 0x3100], [1]), None)],
                 [Mapping(0x1000, 0x2000, 0, "a", None), Mapping(0x3000, 0x4000, 0, "b", None)])
  }

  lemma SharedTranslationIsNotInjective(resolve: nat -> seq<Symbol>)
    requires resolve(0x1100) == [] && resolve(0x3100) == []
    ensures WellFormed(SharedTranslation()) && !InjectiveAcrossMappings(SharedTranslation(), resolve)
  {
    var input := SharedTranslation();
    var m, addrs := input.mappings, input.stacks[0].0.addrs;
    FirstMapping(m, 0x1100, 0);
    FirstMapping(m, 0x3100, 1);
    assert addrs[..1] == [0x1100] && addrs[..1][..0] == [];
    assert Frames(resolve, addrs[..1]) == [0x1100];
    assert Frames(resolve, addrs) == [0x1100, 0x3100];
    assert AllFrames(input, resolve, 1) == AllFrames(input, resolve, 0) + Shown(Frames(resolve, addrs));
    assert 0x1100 in AllFrames(input, resolve, 1) && 0x3100 in AllFrames(input, resolve, 1);
  }

  lemma FirstMapping(mappings: seq<Mapping>, addr: nat, k: nat)
    requires k < |mappings| && Contains(mappings[k], addr) && forall j | 0 <= j < k :: !Contains(mappings[j], addr)
    ensures FindMapping(mappings, addr) == Some(k)
  {
    var found := FindMapping(mappings, addr);
    assert found.value <= k;
  }

  lemma {:induction false} FrameOfStack(input: StackProfile, resolve: nat -> seq<Symbol>, n: nat, a: nat)
    returns (k: nat, j: nat)
    requires n <= |input.stacks| && a in AllFrames(input, resolve, n)
    ensures k < n && j < |Frames(resolve, input.stacks[k].0.addrs)| && Frames(resolve, input.stacks[k].0.addrs)[j] == a
  {
    var frames := Frames(resolve, input.stacks[n - 1].0.addrs);
    if a in frames {
      k := n - 1;
      j :| 0 <= j < |frames| && frames[j] == a;
    } else {
      k, j := FrameOfStack(input, resolve, n - 1, a);
    }
  }

  /** A frame of the stacks is shown at some location. */
  lemma ShownSomewhere(p: Profile, input: StackProfile, resolve: nat -> seq<Symbol>, a: nat) returns (id: nat)
    requires |p.sample| == |input.stacks|
    requires forall k :: 0 <= k < |input.stacks| ==>
               StackPlaced(p.location, input.mappings, p.sample[k].locationId, Frames(resolve, input.stacks[k].0.addrs))
    requires a in AllFrames(input, resolve, |input.stacks|)
    ensures id < |p.location| && p.location[id].address == Translate(input.mappings, a)
  {
    var k, j := FrameOfStack(input, resolve, |input.stacks|, a);
    var frames, ids := Frames(resolve, input.stacks[k].0.addrs), p.sample[k].locationId;
    assert FrameAt(p.location, input.mappings, ids[j], frames[j]);
    id := ids[j] - 1;
  }

  /** Every frame shown has a location with its file-relative address. */
  lemma {:induction false} LocationOfFrame(p: Profile, input: StackProfile, resolve: nat -> seq<Symbol>,
                                           types: seq<(string, string)>,
                         periodType: (string, string), key: string, origins: seq<nat>, definers: seq<Symbol>, a: nat)
    returns (id: nat)
    requires WellFormed(input) && types != []
    requires Decodes(p, input, resolve, types, periodType, key, origins, definers)
    requires a in AllFrames(input, resolve, |input.stacks|)
    ensures id < |p.location| && p.location[id].address == Translate(input.mappings, a)
  {
    forall k | 0 <= k < |input.stacks|
      ensures StackPlaced(p.location, input.mappings, p.sample[k].locationId, Frames(resolve, input.stacks[k].0.addrs))
    {
      StackIsPlaced(p, input, resolve, types, periodType, key, origins, definers, k);
    }
    id := ShownSomewhere(p, input, resolve, a);
  }

  /** Every location carries the address and the mapping of the frame that brought it. */
  lemma {:induction false} OriginsShown(p: Profile, input: StackProfile, resolve: nat -> seq<Symbol>,
                                        types: seq<(string, string)>,
                      periodType: (string, string), key: string, origins: seq<nat>, definers: seq<Symbol>, k: nat)
    requires WellFormed(input) && types != []
    requires Decodes(p, input, resolve, types, periodType, key, origins, definers)
    requires k < |p.location|
    ensures |origins| == |p.location| && origins[k] in AllFrames(input, resolve, |input.stacks|)
    ensures p.location[k].address == Translate(input.mappings, origins[k])
    ensures p.location[k].mappingId == MappingIdOf(input.mappings, origins[k])
  {
    var byAddress :| LocationsOk(p.stringTable, p.function_, input.mappings, resolve, p.location, byAddress, origins);
    assert LocationSays(p.stringTable, p.function_, input.mappings, resolve, p.location[k], origins[k]);
  }

  /** Since locations are shared by file-relative address alone, every frame is shown in its
      own mapping if and only if translation is injective across the mappings. */
  lemma {:induction false} MappingsNamedExactly(p: Profile, input: StackProfile, resolve: nat -> seq<Symbol>,
                                                types: seq<(string, string)>,
                             periodType: (string, string), key: string, origins: seq<nat>, definers: seq<Symbol>)
    requires WellFormed(input) && types != []
    requires Decodes(p, input, resolve, types, periodType, key, origins, definers)
    ensures MappingsNamed(p, input, AllFrames(input, resolve, |input.stacks|)) <==>
            InjectiveAcrossMappings(input, resolve)
  {
    var shown := AllFrames(input, resolve, |input.stacks|);
    if MappingsNamed(p, input, shown) {
      forall a, b | a in shown && b in shown && Translate(input.mappings, a) == Translate(input.mappings, b)
        ensures MappingIdOf(input.mappings, a) == MappingIdOf(input.mappings, b)
      {
        var k := LocationOfFrame(p, input, resolve, types, periodType, key, origins, definers, a);
      }
    }
    if InjectiveAcrossMappings(input, resolve) {
      forall a, k | a in shown && 0 <= k < |p.location| && p.location[k].address == Translate(input.mappings, a)
        ensures p.location[k].mappingId == MappingIdOf(input.mappings, a)
      {
        OriginsShown(p, input, resolve, types, periodType, key, origins, definers, k);
      }
    }
  }

  /** The lines of every location resolve to the names and line numbers of the named symbols
      of the frame that brought it, innermost first. */
  lemma LinesDecode(p: Profile, input: StackProfile, resolve: nat -> seq<Symbol>, types: seq<(string, string)>,
                    periodType: (string, string), key: string, origins: seq<nat>, definers: seq<Symbol>, k: nat)
    returns (at: seq<nat>)
    requires WellFormed(input) && types != []
    requires Decodes(p, input, resolve, types, periodType, key, origins, definers) && k < |p.location|
    ensures |origins| == |p.location|
    ensures var symbols, lines := resolve(origins[k]), p.location[k].line;
            && Places(at, |symbols|) && |lines| == |at|
            && (forall i: nat | i < |symbols| :: i in at <==> symbols[i].name.Some?)
            && (forall j | 0 <= j < |lines| :: LineShows(p, lines[j], symbols[at[j]]))
  {
    hide HeaderDecodes, SamplesDecode, BroughtBy, ProperStrings, Translate, MappingIdOf, NamesNumbered, Numbered;
    var byAddress :| LocationsOk(p.stringTable, p.function_, input.mappings, resolve, p.location, byAddress, origins);
    var byName :| FunctionsOk(p.stringTable, p.function_, byName, definers);
    assert LocationSays(p.stringTable, p.function_, input.mappings, resolve, p.location[k], origins[k]);
    at := NamedMean(resolve(origins[k]));
    forall j | 0 <= j < |p.location[k].line| ensures LineShows(p, p.location[k].line[j], resolve(origins[k])[at[j]]) {
      assert LineSays(p.stringTable, p.function_, p.location[k].line[j], Named(resolve(origins[k]))[j]);
    }
  }

  /** What a reader finds by following a line. */
  predicate LineShows(p: Profile, line: Line, symbol: Symbol) {
    && 1 <= line.functionId <= |p.function_| && p.function_[line.functionId - 1].id == line.functionId
    && p.function_[line.functionId - 1].name < |p.stringTable|
    && symbol.name == Some(p.stringTable[p.function_[line.functionId - 1].name])
    && line.line == if symbol.lineno.Some? then symbol.lineno.value else 0
  }
}
