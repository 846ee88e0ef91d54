/** Building a pprof profile from weighted stacks, and what its ids and indices mean. */
module Profiles {
  import opened Wrappers
  import opened Bytes

  const ADDRESS_SPACE := 0x1_0000_0000_0000_0000

  // ---------- input ----------

  datatype WeightedStack = WeightedStack(addrs: seq<nat>, values: seq<int>)
  datatype Mapping = Mapping(memoryStart: nat, memoryEnd: nat, fileOffset: nat, pathname: string,
                             buildId: Option<seq<byte>>)
  datatype StackProfile = StackProfile(annotations: seq<string>, stacks: seq<(WeightedStack, Option<nat>)>,
                                       mappings: seq<Mapping>)

  /** One symbol that the resolver reports for an address, innermost first. */
  datatype Symbol = Symbol(name: Option<string>, systemName: string, filename: Option<string>, lineno: Option<nat>)

  // ---------- output: the messages of profile.proto ----------

  datatype ValueType = ValueType(typ: nat, unit: nat)
  datatype MappingEntry = MappingEntry(id: nat, filename: nat, buildId: nat)
  datatype Line = Line(functionId: nat, line: int)
  datatype Location = Location(id: nat, mappingId: nat, address: nat, line: seq<Line>)
  datatype FunctionEntry = FunctionEntry(id: nat, name: nat, systemName: nat, filename: nat)
  datatype Label = Label(key: nat, str: nat)
  datatype Sample = Sample(locationId: seq<nat>, value: seq<int>, labels: seq<Label>)
  datatype Profile = Profile(
    sampleType: seq<ValueType>, sample: seq<Sample>, mapping: seq<MappingEntry>, location: seq<Location>,
    function_: seq<FunctionEntry>, stringTable: seq<string>, timeNanos: int, periodType: ValueType, period: int,
    defaultSampleType: nat)

  // ---------- addresses ----------

  predicate Contains(m: Mapping, addr: nat) {
    m.memoryStart <= addr < m.memoryEnd
  }

  /** The first mapping that contains an address. */
  function FindMapping(mappings: seq<Mapping>, addr: nat): (found: Option<nat>)
    ensures found.Some? ==> found.value < |mappings| && Contains(mappings[found.value], addr)
    ensures forall k :: 0 <= k < |mappings| && Contains(mappings[k], addr) ==> found.Some? && found.value <= k
  {
    if mappings == [] then None
    else
      var before := FindMapping(mappings[..|mappings| - 1], addr);
      if before.Some? then before
      else if Contains(mappings[|mappings| - 1], addr) then Some(|mappings| - 1)
      else None
  }

  /** The file-relative address. */
  function Translate(mappings: seq<Mapping>, addr: nat): nat {
    match FindMapping(mappings, addr)
    case None => addr
    case Some(k) => (addr - mappings[k].memoryStart + mappings[k].fileOffset) % ADDRESS_SPACE
  }

  /** The profile's id of the first containing mapping, or zero. */
  function MappingIdOf(mappings: seq<Mapping>, addr: nat): nat {
    match FindMapping(mappings, addr)
    case None => 0
    case Some(k) => k + 1
  }

  /** Equal as 64-bit words. */
  predicate Congruent(a: nat, b: nat) {
    a % 18446744073709551616 == b % 18446744073709551616
  }

  predicate Outside(mappings: seq<Mapping>, addr: nat) {
    forall k | 0 <= k < |mappings| :: !(mappings[k].memoryStart <= addr < mappings[k].memoryEnd)
  }

  /** The mapping contains the address and none before it does. */
  predicate FirstInside(mappings: seq<Mapping>, addr: nat, k: nat) {
    && k < |mappings| && mappings[k].memoryStart <= addr < mappings[k].memoryEnd
    && forall j | 0 <= j < k :: !(mappings[j].memoryStart <= addr < mappings[j].memoryEnd)
  }

  /** Where an address is to be shown: itself when no mapping contains it, and otherwise its place
      in the file of the first mapping that does, modulo the address space. */
  ghost predicate ShownAt(mappings: seq<Mapping>, addr: nat, shown: nat) {
    if Outside(mappings, addr) then shown == addr
    else exists k: nat :: FirstInside(mappings, addr, k) && ShownInFile(mappings[k], addr, shown)
  }

  predicate ShownInFile(m: Mapping, addr: nat, shown: nat) {
    shown < 18446744073709551616 && Congruent(shown + m.memoryStart, addr + m.fileOffset)
  }

  /** The mapping an address is to be shown in: none when no mapping contains it, and otherwise the
      first that does, counting from one. */
  predicate ShownIn(mappings: seq<Mapping>, addr: nat, id: nat) {
    if Outside(mappings, addr) then id == 0 else id >= 1 && FirstInside(mappings, addr, id - 1)
  }

  lemma TranslateMod(m: Mapping, addr: nat)
    requires m.memoryStart <= addr
    ensures Congruent((addr - m.memoryStart + m.fileOffset) % ADDRESS_SPACE + m.memoryStart, addr + m.fileOffset)
  {
  }

  lemma FoundFirst(mappings: seq<Mapping>, addr: nat)
    ensures FindMapping(mappings, addr).None? <==> Outside(mappings, addr)
    ensures FindMapping(mappings, addr).Some? ==> FirstInside(mappings, addr, FindMapping(mappings, addr).value)
  {
    var found := FindMapping(mappings, addr);
    if found.Some? {
      assert Contains(mappings[found.value], addr);
      assert forall j | 0 <= j < found.value :: !Contains(mappings[j], addr);
    } else {
      assert forall j | 0 <= j < |mappings| :: !Contains(mappings[j], addr);
    }
  }

  lemma TranslateMeans(mappings: seq<Mapping>, addr: nat)
    ensures ShownAt(mappings, addr, Translate(mappings, addr))
  {
    hide Congruent;
    FoundFirst(mappings, addr);
    var found := FindMapping(mappings, addr);
    if found.Some? {
      TranslateMod(mappings[found.value], addr);
      assert ShownInFile(mappings[found.value], addr, Translate(mappings, addr));
    }
  }

  lemma MappingIdMeans(mappings: seq<Mapping>, addr: nat)
    ensures ShownIn(mappings, addr, MappingIdOf(mappings, addr))
  {
    FoundFirst(mappings, addr);
  }

  lemma SameWord(a: nat, b: nat, start: nat, sum: nat)
    requires a < 18446744073709551616 && b < 18446744073709551616
    requires Congruent(a + start, sum) && Congruent(b + start, sum)
    ensures a == b
  {
  }

  /** No frame can be shown at two addresses. */
  lemma ShownOnce(mappings: seq<Mapping>, addr: nat, a: nat, b: nat)
    requires ShownAt(mappings, addr, a) && ShownAt(mappings, addr, b)
    ensures a == b
  {
    hide Congruent;
    if !Outside(mappings, addr) {
      var i: nat :| FirstInside(mappings, addr, i) && ShownInFile(mappings[i], addr, a);
      var j: nat :| FirstInside(mappings, addr, j) && ShownInFile(mappings[j], addr, b);
      assert i == j;
      SameWord(a, b, mappings[i].memoryStart, addr + mappings[i].fileOffset);
    }
  }

  predicate InternalName(name: string) {
    "pprof_alloc::" <= name
  }

  predicate IsInternal(symbols: seq<Symbol>) {
    exists k | 0 <= k < |symbols| :: symbols[k].name.Some? && InternalName(symbols[k].name.value)
  }

  predicate Kept(resolve: nat -> seq<Symbol>, addr: nat) {
    addr != 0 && !IsInternal(resolve(addr))
  }

  /** The addresses of a stack that the profile shows, still in leaf-to-root order. */
  function Frames(resolve: nat -> seq<Symbol>, addrs: seq<nat>): seq<nat> {
    if addrs == [] then []
    else
      var before := Frames(resolve, addrs[..|addrs| - 1]);
      if Kept(resolve, addrs[|addrs| - 1]) then before + [addrs[|addrs| - 1]] else before
  }

  /** A frame is hidden if it is zero or belongs, by one of its symbols, to the profiler. */
  predicate Hidden(resolve: nat -> seq<Symbol>, addr: nat) {
    || addr == 0
    || exists k | 0 <= k < |resolve(addr)| ::
         resolve(addr)[k].name.Some? && "pprof_alloc::" <= resolve(addr)[k].name.value
  }

  /** Places in a sequence of length `n`, in order. */
  predicate Places(at: seq<nat>, n: nat) {
    (forall j | 0 <= j < |at| :: at[j] < n) && forall i, j | 0 <= i < j < |at| :: at[i] < at[j]
  }

  /** The frames are the addresses that are not hidden, in order. */
  lemma {:induction false} FramesMean(resolve: nat -> seq<Symbol>, addrs: seq<nat>) returns (at: seq<nat>)
    ensures Places(at, |addrs|) && |at| == |Frames(resolve, addrs)|
    ensures forall j | 0 <= j < |at| :: Frames(resolve, addrs)[j] == addrs[at[j]]
    ensures forall i: nat | i < |addrs| :: i in at <==> !Hidden(resolve, addrs[i])
  {
    at := [];
    if addrs != [] {
      var n := |addrs| - 1;
      at := FramesMean(resolve, addrs[..n]);
      assert forall i: nat | i < n :: addrs[..n][i] == addrs[i];
      if Kept(resolve, addrs[n]) {
        at := at + [n];
      }
    }
  }

  function Shown(frames: seq<nat>): set<nat> {
    set f | f in frames
  }

  lemma ShownAdd(frames: seq<nat>, f: nat)
    ensures Shown(frames + [f]) == Shown(frames) + {f}
  {
  }

  function Named(symbols: seq<Symbol>): seq<Symbol> {
    if symbols == [] then []
    else
      var before := Named(symbols[..|symbols| - 1]);
      if symbols[|symbols| - 1].name.Some? then before + [symbols[|symbols| - 1]] else before
  }

  /** The named symbols are those with a name, in order. */
  lemma {:induction false} NamedMean(symbols: seq<Symbol>) returns (at: seq<nat>)
    ensures Places(at, |symbols|) && |at| == |Named(symbols)|
    ensures forall j | 0 <= j < |at| :: Named(symbols)[j] == symbols[at[j]]
    ensures forall i: nat | i < |symbols| :: i in at <==> symbols[i].name.Some?
  {
    at := [];
    if symbols != [] {
      var n := |symbols| - 1;
      at := NamedMean(symbols[..n]);
      assert forall i: nat | i < n :: symbols[..n][i] == symbols[i];
      if symbols[n].name.Some? {
        at := at + [n];
      }
    }
  }

  lemma {:induction false} NamedStep(symbols: seq<Symbol>, k: nat)
    requires k < |symbols|
    ensures Named(symbols[..k + 1]) == Named(symbols[..k]) + if symbols[k].name.Some? then [symbols[k]] else []
  {
    assert symbols[..k + 1][..k] == symbols[..k];
  }

  function LineNumber(s: Symbol): int {
    if s.lineno.Some? then s.lineno.value else 0
  }

  function Filename(s: Symbol): string {
    if s.filename.Some? then s.filename.value else ""
  }

  // ---------- what the tables mean ----------

  /** The string at an index. */
  predicate Says(strings: seq<string>, index: nat, s: string) {
    index < |strings| && strings[index] == s
  }

  predicate FunctionSays(strings: seq<string>, f: FunctionEntry, s: Symbol) {
    s.name.Some? && Says(strings, f.name, s.name.value) && Says(strings, f.systemName, s.systemName)
    && Says(strings, f.filename, Filename(s))
  }

  /** Functions are numbered from 1, one for each name, and describe the symbol that first
      brought the name. */
  ghost predicate FunctionsOk(strings: seq<string>, functions: seq<FunctionEntry>, ids: map<string, nat>,
                              definers: seq<Symbol>)
  {
    && |definers| == |functions|
    && (forall k :: 0 <= k < |functions| ==>
        functions[k].id == k + 1 && FunctionSays(strings, functions[k], definers[k]))
    && NamesNumbered(ids, definers)
  }

  predicate NameNumbered(ids: map<string, nat>, definer: Symbol, id: nat) {
    definer.name.Some? && definer.name.value in ids && ids[definer.name.value] == id
  }

  ghost predicate NamesNumbered(ids: map<string, nat>, definers: seq<Symbol>) {
    && (forall k :: 0 <= k < |definers| ==> NameNumbered(ids, definers[k], k + 1))
    && (forall n :: n in ids ==> 1 <= ids[n] <= |definers| && definers[ids[n] - 1].name == Some(n))
  }

  predicate LineSays(strings: seq<string>, functions: seq<FunctionEntry>, l: Line, s: Symbol) {
    s.name.Some? && 1 <= l.functionId <= |functions| && Says(strings, functions[l.functionId - 1].name, s.name.value)
    && l.line == LineNumber(s)
  }

  ghost predicate LinesSay(strings: seq<string>, functions: seq<FunctionEntry>, lines: seq<Line>,
                           symbols: seq<Symbol>)
  {
    |lines| == |symbols| && forall j :: 0 <= j < |lines| ==> LineSays(strings, functions, lines[j], symbols[j])
  }

  /** A location shows the address `origin` that first brought it. */
  ghost predicate LocationSays(strings: seq<string>, functions: seq<FunctionEntry>, mappings: seq<Mapping>,
                               resolve: nat -> seq<Symbol>, l: Location, origin: nat)
  {
    l.address == Translate(mappings, origin) && l.mappingId == MappingIdOf(mappings, origin)
    && LinesSay(strings, functions, l.line, Named(resolve(origin)))
  }

  ghost predicate Numbered(locations: seq<Location>, ids: map<nat, nat>) {
    && (forall k :: 0 <= k < |locations| ==>
          locations[k].id == k + 1 && locations[k].address in ids && ids[locations[k].address] == k + 1)
    && (forall a :: a in ids ==> 1 <= ids[a] <= |locations| && locations[ids[a] - 1].address == a)
  }

  /** Locations are numbered from 1, one for each file-relative address. */
  ghost predicate LocationsOk(strings: seq<string>, functions: seq<FunctionEntry>, mappings: seq<Mapping>,
                              resolve: nat -> seq<Symbol>, locations: seq<Location>, ids: map<nat, nat>,
                              origins: seq<nat>)
  {
    && |origins| == |locations| && Numbered(locations, ids)
    && (forall k :: 0 <= k < |locations| ==>
        LocationSays(strings, functions, mappings, resolve, locations[k], origins[k]))
  }

  /** Every location was brought by one of these addresses, and every function by a symbol of one. */
  ghost predicate BroughtBy(origins: seq<nat>, definers: seq<Symbol>, resolve: nat -> seq<Symbol>, frames: set<nat>) {
    && (forall k :: 0 <= k < |origins| ==> origins[k] in frames)
    && (forall k :: 0 <= k < |definers| ==> DefinedBy(definers[k], resolve, frames))
  }

  ghost predicate DefinedBy(symbol: Symbol, resolve: nat -> seq<Symbol>, frames: set<nat>) {
    exists a :: a in frames && symbol in resolve(a)
  }

  /** Every new symbol is one of these. */
  ghost predicate Joined(definers: seq<Symbol>, definers': seq<Symbol>, symbols: seq<Symbol>) {
    forall k :: 0 <= k < |definers'| ==> definers'[k] in definers || definers'[k] in symbols
  }

  predicate LabelSays(strings: seq<string>, l: Label, key: string, anno: string) {
    Says(strings, l.key, key) && Says(strings, l.str, anno)
  }

  predicate FrameAt(locations: seq<Location>, mappings: seq<Mapping>, id: nat, addr: nat) {
    1 <= id <= |locations| && locations[id - 1].address == Translate(mappings, addr)
  }

  /** The sample shows the values and, in order, every kept frame of the stack, each frame
      labelled with the annotation if there is one. */
  ghost predicate SampleSays(strings: seq<string>, locations: seq<Location>, mappings: seq<Mapping>, frames: seq<nat>,
                             sample: Sample, values: seq<int>, key: string, anno: Option<string>)
  {
    && sample.value == values
    && |sample.locationId| == |frames|
    && (forall j :: 0 <= j < |frames| ==> FrameAt(locations, mappings, sample.locationId[j], frames[j]))
    && |sample.labels| == (if anno.Some? then |frames| else 0)
    && (forall j :: 0 <= j < |sample.labels| ==> LabelSays(strings, sample.labels[j], key, anno.value))
  }

  // ---------- references keep their meaning while the tables grow ----------

  lemma LocationSaysGrows(strings: seq<string>, functions: seq<FunctionEntry>, strings': seq<string>,
                          functions': seq<FunctionEntry>,
                          mappings: seq<Mapping>, resolve: nat -> seq<Symbol>, l: Location, origin: nat)
    requires strings <= strings' && functions <= functions'
    requires LocationSays(strings, functions, mappings, resolve, l, origin)
    ensures LocationSays(strings', functions', mappings, resolve, l, origin)
  {
    forall j | 0 <= j < |l.line| ensures LineSays(strings', functions', l.line[j], Named(resolve(origin))[j]) {
      assert LineSays(strings, functions, l.line[j], Named(resolve(origin))[j]);
    }
  }

  lemma LocationsOkGrows(strings: seq<string>, functions: seq<FunctionEntry>, strings': seq<string>,
                         functions': seq<FunctionEntry>,
                         mappings: seq<Mapping>, resolve: nat -> seq<Symbol>, locations: seq<Location>,
                         ids: map<nat, nat>, origins: seq<nat>)
    requires strings <= strings' && functions <= functions'
    requires LocationsOk(strings, functions, mappings, resolve, locations, ids, origins)
    ensures LocationsOk(strings', functions', mappings, resolve, locations, ids, origins)
  {
    forall k | 0 <= k < |locations|
      ensures LocationSays(strings', functions', mappings, resolve, locations[k], origins[k])
    {
      LocationSaysGrows(strings, functions, strings', functions', mappings, resolve, locations[k], origins[k]);
    }
  }

  lemma FunctionsOkGrows(strings: seq<string>, strings': seq<string>, functions: seq<FunctionEntry>,
                         ids: map<string, nat>, definers: seq<Symbol>)
    requires strings <= strings' && FunctionsOk(strings, functions, ids, definers)
    ensures FunctionsOk(strings', functions, ids, definers)
  {
    forall k | 0 <= k < |functions| ensures FunctionSays(strings', functions[k], definers[k]) {
      assert FunctionSays(strings, functions[k], definers[k]);
    }
  }

  /** A name that has an id has the function of that id. */
  lemma {:induction false} KnownFunction(strings: seq<string>, functions: seq<FunctionEntry>, ids: map<string, nat>,
                                         definers: seq<Symbol>,
                                         name: string)
    requires FunctionsOk(strings, functions, ids, definers) && name in ids
    ensures 1 <= ids[name] <= |functions| && Says(strings, functions[ids[name] - 1].name, name)
  {
    assert FunctionSays(strings, functions[ids[name] - 1], definers[ids[name] - 1]);
  }

  lemma NamesNumberedAdd(ids: map<string, nat>, definers: seq<Symbol>, name: string, symbol: Symbol)
    requires NamesNumbered(ids, definers) && symbol.name == Some(name) && name !in ids
    ensures NamesNumbered(ids[name := |definers| + 1], definers + [symbol])
  {
    var ids', definers' := ids[name := |definers| + 1], definers + [symbol];
    forall k | 0 <= k < |definers'| ensures NameNumbered(ids', definers'[k], k + 1) {
      assert k < |definers| ==> NameNumbered(ids, definers[k], k + 1);
    }
    forall n | n in ids' ensures 1 <= ids'[n] <= |definers'| && definers'[ids'[n] - 1].name == Some(n) {
      assert n != name ==> n in ids && definers'[ids[n] - 1] == definers[ids[n] - 1];
    }
  }

  lemma FunctionsOkAdd(strings: seq<string>, functions: seq<FunctionEntry>, ids: map<string, nat>,
                       definers: seq<Symbol>,
                       f: FunctionEntry, symbol: Symbol)
    requires FunctionsOk(strings, functions, ids, definers)
    requires f.id == |functions| + 1 && FunctionSays(strings, f, symbol) && symbol.name.value !in ids
    ensures FunctionsOk(strings, functions + [f], ids[symbol.name.value := f.id], definers + [symbol])
  {
    NamesNumberedAdd(ids, definers, symbol.name.value, symbol);
    var functions', definers' := functions + [f], definers + [symbol];
    forall k | 0 <= k < |functions'|
      ensures functions'[k].id == k + 1 && FunctionSays(strings, functions'[k], definers'[k])
    {
      if k < |functions| {
        assert functions'[k] == functions[k] && definers'[k] == definers[k];
      }
    }
  }

  lemma LinesSayAdd(strings: seq<string>, functions: seq<FunctionEntry>, strings': seq<string>,
                    functions': seq<FunctionEntry>,
                    lines: seq<Line>, symbols: seq<Symbol>, l: Line, s: Symbol)
    requires strings <= strings' && functions <= functions'
    requires LinesSay(strings, functions, lines, symbols) && LineSays(strings', functions', l, s)
    ensures LinesSay(strings', functions', lines + [l], symbols + [s])
  {
    forall j | 0 <= j < |lines| ensures LineSays(strings', functions', lines[j], symbols[j]) {
      assert LineSays(strings, functions, lines[j], symbols[j]);
    }
  }

  lemma LocationsOkAdd(strings: seq<string>, functions: seq<FunctionEntry>, mappings: seq<Mapping>,
                       resolve: nat -> seq<Symbol>,
                       locations: seq<Location>, ids: map<nat, nat>, origins: seq<nat>, l: Location, origin: nat)
    requires LocationsOk(strings, functions, mappings, resolve, locations, ids, origins)
    requires l.id == |locations| + 1 && l.address !in ids
             && LocationSays(strings, functions, mappings, resolve, l, origin)
    ensures LocationsOk(strings, functions, mappings, resolve, locations + [l], ids[l.address := l.id],
                        origins + [origin])
  {
    NumberedAdd(locations, ids, l);
    forall k | 0 <= k < |locations| + 1
      ensures LocationSays(strings, functions, mappings, resolve, (locations + [l])[k], (origins + [origin])[k])
    {
      if k < |locations| {
        assert (locations + [l])[k] == locations[k] && (origins + [origin])[k] == origins[k];
      }
    }
  }

  lemma NumberedAdd(locations: seq<Location>, ids: map<nat, nat>, l: Location)
    requires Numbered(locations, ids) && l.id == |locations| + 1 && l.address !in ids
    ensures Numbered(locations + [l], ids[l.address := l.id])
  {
  }

  lemma SampleSaysAdd(strings: seq<string>, locations: seq<Location>, mappings: seq<Mapping>, frames: seq<nat>,
                      sample: Sample,
                      values: seq<int>, key: string, anno: Option<string>, id: nat, addr: nat, labels: seq<Label>)
    requires SampleSays(strings, locations, mappings, frames, sample, values, key, anno)
    requires FrameAt(locations, mappings, id, addr)
    requires |labels| == (if anno.Some? then 1 else 0)
             && (anno.Some? ==> LabelSays(strings, labels[0], key, anno.value))
    ensures SampleSays(strings, locations, mappings, frames + [addr],
                       Sample(sample.locationId + [id], sample.value, sample.labels + labels), values, key, anno)
  {
  }

  lemma BroughtByAdd(origins: seq<nat>, definers: seq<Symbol>, origins': seq<nat>, definers': seq<Symbol>,
                     resolve: nat -> seq<Symbol>, frames: set<nat>, addr: nat)
    requires BroughtBy(origins, definers, resolve, frames)
    requires origins' == origins || origins' == origins + [addr]
    requires Joined(definers, definers', resolve(addr))
    ensures BroughtBy(origins', definers', resolve, frames + {addr})
  {
    forall k | 0 <= k < |definers'| ensures DefinedBy(definers'[k], resolve, frames + {addr}) {
      if definers'[k] in definers {
        var j :| 0 <= j < |definers| && definers[j] == definers'[k];
        assert DefinedBy(definers[j], resolve, frames);
        var a :| a in frames && definers[j] in resolve(a);
        assert a in frames + {addr};
      } else {
        assert addr in frames + {addr};
      }
    }
  }

  lemma FramesNext(resolve: nat -> seq<Symbol>, addrs: seq<nat>, k: nat)
    requires k < |addrs|
    ensures Frames(resolve, addrs[..k + 1])
            == Frames(resolve, addrs[..k]) + (if Kept(resolve, addrs[k]) then [addrs[k]] else [])
  {
    assert addrs[..k + 1][..k] == addrs[..k];
  }

  lemma SampleSaysGrows(strings: seq<string>, locations: seq<Location>, strings': seq<string>,
                        locations': seq<Location>,
                        mappings: seq<Mapping>, frames: seq<nat>, sample: Sample, values: seq<int>, key: string,
                        anno: Option<string>)
    requires strings <= strings' && locations <= locations'
    requires SampleSays(strings, locations, mappings, frames, sample, values, key, anno)
    ensures SampleSays(strings', locations', mappings, frames, sample, values, key, anno)
  {
  }
}
