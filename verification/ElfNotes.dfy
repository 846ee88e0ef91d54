/** Finding build ids in ELF note segments and building the mapping table. */
module ElfNotes {
  import opened Wrappers
  import opened Bytes
  import P = Profiles

  const NOTE_HEADER := 12
  const NT_GNU_BUILD_ID := 3
  const GNU_NOTE_NAME: seq<byte> := [71, 78, 85, 0]
  const ALIGN := 4
  const WORD32 := 0x1_0000_0000
  const ADDRESS_SPACE := 0x1_0000_0000_0000_0000

  // ---------- layout of notes: "Note Section" in chapter 5 of the System V ABI ----------

  datatype Note = Note(typ: nat, name: seq<byte>, desc: seq<byte>)

  predicate Representable(n: Note) {
    n.typ < WORD32 && |n.name| < WORD32 && |n.desc| < WORD32
  }

  /** The least multiple of four that is not below `p`. */
  function AlignUp(p: nat): nat {
    if p % ALIGN == 0 then p else p + (ALIGN - p % ALIGN)
  }

  lemma AlignUpIsLeast(p: nat, q: nat)
    ensures p <= AlignUp(p) < p + 4 && AlignUp(p) % 4 == 0
    ensures q % 4 == 0 && p <= q ==> AlignUp(p) <= q
  {
  }

  function Word(x: nat): seq<byte>
    requires x < WORD32
  {
    [x % 256, x / 256 % 256, x / 65536 % 256, x / 16777216]
  }

  function Padding(n: nat): seq<byte> {
    seq(AlignUp(n) - n, _ => 0)
  }

  /** The bytes of one note: sizes and type, then name and descriptor, each padded. */
  function Encode(n: Note): seq<byte>
    requires Representable(n)
  {
    Word(|n.name|) + Word(|n.desc|) + Word(n.typ)
    + n.name + Padding(|n.name|) + n.desc + Padding(|n.desc|)
  }

  function Layout(notes: seq<Note>): seq<byte>
    requires forall k | 0 <= k < |notes| :: Representable(notes[k])
  {
    if notes == [] then [] else Encode(notes[0]) + Layout(notes[1..])
  }

  predicate IsBuildId(n: Note) {
    n.typ == NT_GNU_BUILD_ID && n.desc != [] && n.name == GNU_NOTE_NAME
  }

  function FirstBuildId(notes: seq<Note>): Option<seq<byte>> {
    if notes == [] then None
    else if IsBuildId(notes[0]) then Some(notes[0].desc)
    else FirstBuildId(notes[1..])
  }

  // ---------- reading ----------

  function ReadWord(b: seq<byte>, at: nat): nat
    requires at + 4 <= |b|
  {
    b[at] as nat + 256 * b[at + 1] as nat + 65536 * b[at + 2] as nat + 16777216 * b[at + 3] as nat
  }

  lemma WordRoundTrip(x: nat)
    requires x < WORD32
    ensures ReadWord(Word(x), 0) == x
  {
    assert x == 256 * (x / 256) + x % 256;
    assert x / 256 == 256 * (x / 65536) + x / 256 % 256;
    assert x / 65536 == 256 * (x / 16777216) + x / 65536 % 256;
  }

  lemma ReadWordWithin(b: seq<byte>, at: nat, x: nat)
    requires x < WORD32 && at + 4 <= |b| && b[at..at + 4] == Word(x)
    ensures ReadWord(b, at) == x
  {
    WordRoundTrip(x);
    assert b[at] == b[at..at + 4][0] && b[at + 1] == b[at..at + 4][1] && b[at + 2] == b[at..at + 4][2]
           && b[at + 3] == b[at..at + 4][3];
  }

  function EncodedSize(n: Note): nat {
    NOTE_HEADER + AlignUp(|n.name|) + AlignUp(|n.desc|)
  }

  lemma PartOf(seg: seq<byte>, at: nat, e: seq<byte>, i: nat, j: nat)
    requires at + |e| <= |seg| && seg[at..at + |e|] == e && i <= j <= |e|
    ensures seg[at + i..at + j] == e[i..j]
  {
    forall k | i <= k < j ensures seg[at + k] == e[k] {
      assert seg[at + k] == seg[at..at + |e|][k];
    }
  }

  lemma EncodedParts(n: Note)
    requires Representable(n)
    ensures var e, d := Encode(n), NOTE_HEADER + AlignUp(|n.name|);
            && |e| == EncodedSize(n)
            && e[0..4] == Word(|n.name|) && e[4..8] == Word(|n.desc|) && e[8..12] == Word(n.typ)
            && e[12..12 + |n.name|] == n.name && e[d..d + |n.desc|] == n.desc
  {
    var head := Word(|n.name|) + Word(|n.desc|) + Word(n.typ);
    var name, desc := n.name + Padding(|n.name|), n.desc + Padding(|n.desc|);
    assert Encode(n) == head + name + desc;
  }

  lemma {:induction false} HeaderAt(seg: seq<byte>, at: nat, n: Note)
    requires Representable(n) && at + |Encode(n)| <= |seg| && seg[at..at + |Encode(n)|] == Encode(n)
    ensures at + NOTE_HEADER <= |seg|
    ensures ReadWord(seg, at) == |n.name| && ReadWord(seg, at + 4) == |n.desc| && ReadWord(seg, at + 8) == n.typ
  {
    var e := Encode(n);
    EncodedParts(n);
    PartOf(seg, at, e, 0, 4);
    PartOf(seg, at, e, 4, 8);
    PartOf(seg, at, e, 8, 12);
    ReadWordWithin(seg, at, |n.name|);
    ReadWordWithin(seg, at + 4, |n.desc|);
    ReadWordWithin(seg, at + 8, n.typ);
  }

  /** Where the parts of a note are when it stands at `at`. */
  lemma NoteAt(seg: seq<byte>, at: nat, n: Note)
    requires Representable(n) && at + |Encode(n)| <= |seg| && seg[at..at + |Encode(n)|] == Encode(n)
    ensures |Encode(n)| == EncodedSize(n) && at + EncodedSize(n) <= |seg|
    ensures ReadWord(seg, at) == |n.name| && ReadWord(seg, at + 4) == |n.desc| && ReadWord(seg, at + 8) == n.typ
    ensures seg[at + NOTE_HEADER..at + NOTE_HEADER + |n.name|] == n.name
    ensures var d := at + NOTE_HEADER + AlignUp(|n.name|); seg[d..d + |n.desc|] == n.desc
  {
    var e, d := Encode(n), NOTE_HEADER + AlignUp(|n.name|);
    EncodedParts(n);
    HeaderAt(seg, at, n);
    PartOf(seg, at, e, 12, 12 + |n.name|);
    PartOf(seg, at, e, d, d + |n.desc|);
  }

  /** The part of the segment from `at` on holds `notes` and less than a note's worth of padding. */
  ghost predicate Holds(seg: seq<byte>, at: nat, notes: seq<Note>) {
    && (forall k | 0 <= k < |notes| :: Representable(notes[k]))
    && at <= |seg|
    && Layout(notes) <= seg[at..]
    && |seg| - at - |Layout(notes)| < NOTE_HEADER + |GNU_NOTE_NAME|
  }

  lemma HoldsFirst(seg: seq<byte>, at: nat, notes: seq<Note>)
    requires Holds(seg, at, notes) && notes != []
    ensures at + EncodedSize(notes[0]) <= |seg| && seg[at..at + |Encode(notes[0])|] == Encode(notes[0])
    ensures |Encode(notes[0])| == EncodedSize(notes[0]) && Representable(notes[0])
    ensures ReadWord(seg, at) == |notes[0].name| && ReadWord(seg, at + 4) == |notes[0].desc|
    ensures Holds(seg, at + EncodedSize(notes[0]), notes[1..])
  {
    var first, rest := Encode(notes[0]), Layout(notes[1..]);
    PrefixSplit(seg, at, first, rest);
    NoteAt(seg, at, notes[0]);
  }

  lemma PrefixSplit(seg: seq<byte>, at: nat, first: seq<byte>, rest: seq<byte>)
    requires at <= |seg| && first + rest <= seg[at..]
    ensures at + |first| <= |seg| && seg[at..at + |first|] == first && rest <= seg[at + |first|..]
  {
    forall k | 0 <= k < |first| ensures seg[at + k] == first[k] {
      assert seg[at + k] == seg[at..][k] == (first + rest)[k];
    }
    forall k | 0 <= k < |rest| ensures seg[at + |first|..][k] == rest[k] {
      assert seg[at..][|first| + k] == (first + rest)[|first| + k];
    }
  }

  lemma {:induction false} LayoutAtLeast(notes: seq<Note>)
    requires forall k | 0 <= k < |notes| :: Representable(notes[k])
    ensures |Layout(notes)| >= NOTE_HEADER * |notes|
    ensures notes != [] ==> |Layout(notes)| >= EncodedSize(notes[0])
  {
    if notes != [] {
      EncodedParts(notes[0]);
      LayoutAtLeast(notes[1..]);
    }
  }

  /** Notes too short for the walk's test are not the one looked for. */
  lemma {:induction false} ShortSegmentHasNone(seg: seq<byte>, at: nat, notes: seq<Note>)
    requires Holds(seg, at, notes) && at + NOTE_HEADER + |GNU_NOTE_NAME| > |seg|
    ensures FirstBuildId(notes) == None
  {
    LayoutAtLeast(notes);
    if notes != [] {
      AlignUpIsLeast(|notes[0].name|, 0);
      AlignUpIsLeast(|notes[0].desc|, 0);
      assert |notes| == 1;
    }
  }

  lemma NoteToRead(seg: seq<byte>, at: nat, notes: seq<Note>)
    requires Holds(seg, at, notes) && at + NOTE_HEADER + |GNU_NOTE_NAME| <= |seg|
    ensures notes != []
  {
  }

  // ---------- the walk over any bytes ----------

  /** The header at `at` and the four bytes after it pass the test for a build id. */
  predicate IsMatch(seg: seq<byte>, at: nat)
    requires at + NOTE_HEADER + |GNU_NOTE_NAME| <= |seg|
  {
    && ReadWord(seg, at + 8) == NT_GNU_BUILD_ID && ReadWord(seg, at + 4) != 0
    && ReadWord(seg, at) == |GNU_NOTE_NAME| && seg[at + 12..at + 16] == GNU_NOTE_NAME
  }

  /** Where the sizes of a header put the next one. */
  function NextAt(seg: seq<byte>, at: nat): (next: nat)
    requires at + NOTE_HEADER <= |seg|
    ensures next >= at + NOTE_HEADER
  {
    at + NOTE_HEADER + AlignUp(ReadWord(seg, at)) + AlignUp(ReadWord(seg, at + 4))
  }

  /** The first header from `at` on that passes the test. */
  function FirstMatch(seg: seq<byte>, at: nat): (found: Option<nat>)
    ensures found.Some? ==> found.value + NOTE_HEADER + |GNU_NOTE_NAME| <= |seg| && IsMatch(seg, found.value)
    decreases if at <= |seg| then |seg| - at else 0
  {
    if at + NOTE_HEADER + |GNU_NOTE_NAME| > |seg| then None
    else if IsMatch(seg, at) then Some(at)
    else FirstMatch(seg, NextAt(seg, at))
  }

  /** The end of the descriptor of a match. */
  function DescriptorEnd(seg: seq<byte>, at: nat): nat
    requires at + NOTE_HEADER + |GNU_NOTE_NAME| <= |seg|
  {
    at + 16 + ReadWord(seg, at + 4)
  }

  /** How a walk ends. It aborts when the first header is misplaced; the descriptor of a match
      may reach past the segment, and its bytes are then not the segment's. */
  datatype Walk = Aborts | Nothing | Found(desc: seq<byte>) | Leaves(at: nat)

  /** A header can be read at an address that is not null and a multiple of four. */
  predicate HeaderPointer(address: nat) {
    address > 0 && address % ALIGN == 0
  }

  function WalkOf(base: nat, seg: seq<byte>): Walk {
    if NOTE_HEADER + |GNU_NOTE_NAME| <= |seg| && !HeaderPointer(base) then Aborts
    else match FirstMatch(seg, 0)
      case None => Nothing
      case Some(at) =>
        if DescriptorEnd(seg, at) <= |seg| then Found(seg[at + 16..DescriptorEnd(seg, at)]) else Leaves(at)
  }

  lemma SumAligned(a: nat, b: nat, c: nat)
    requires a % ALIGN == 0 && b % ALIGN == 0 && c % ALIGN == 0
    ensures (a + NOTE_HEADER + b + c) % ALIGN == 0
  {
  }

  lemma NextHeaderAligned(base: nat, seg: seq<byte>, at: nat)
    requires HeaderPointer(base + at) && at + NOTE_HEADER <= |seg|
    ensures HeaderPointer(base + NextAt(seg, at))
  {
    var name, desc := ReadWord(seg, at), ReadWord(seg, at + 4);
    AlignUpIsLeast(name, 0);
    AlignUpIsLeast(desc, 0);
    SumAligned(base + at, AlignUp(name), AlignUp(desc));
  }

  /** The test of one header, which reads the descriptor only when it matches. The program takes
      the descriptor's size on trust; the case split here tells where it leads. */
  method MatchNote(seg: seq<byte>, offset: nat) returns (found: Walk)
    requires offset + NOTE_HEADER + |GNU_NOTE_NAME| <= |seg|
    ensures found == if !IsMatch(seg, offset) then Nothing
                     else if DescriptorEnd(seg, offset) <= |seg|
                          then Found(seg[offset + 16..DescriptorEnd(seg, offset)])
                     else Leaves(offset)
  {
    var nameSize := ReadWord(seg, offset);
    var descSize := ReadWord(seg, offset + 4);
    var typ := ReadWord(seg, offset + 8);
    found := Nothing;
    if typ == NT_GNU_BUILD_ID && descSize != 0 && nameSize == |GNU_NOTE_NAME| {
      var pName := offset + NOTE_HEADER;
      if seg[pName..pName + 4] == GNU_NOTE_NAME {
        var pDesc := pName + 4;
        found := if pDesc + descSize <= |seg| then Found(seg[pDesc..pDesc + descSize]) else Leaves(offset);
      }
    }
  }

  /** The walk over a segment of any bytes at any address. It ends, every header it looks at is
      aligned, and every header and name it reads is inside the segment. */
  method WalkNotes(base: nat, seg: seq<byte>) returns (r: Walk)
    ensures r == WalkOf(base, seg)
  {
    var offset := 0;
    while offset + NOTE_HEADER + |GNU_NOTE_NAME| <= |seg|
      invariant offset > 0 ==> HeaderPointer(base) && HeaderPointer(base + offset)
      invariant FirstMatch(seg, 0) == FirstMatch(seg, offset)
      decreases |seg| - offset
    {
      if !HeaderPointer(base + offset) {
        return Aborts;
      }
      r := MatchNote(seg, offset);
      if !r.Nothing? {
        return;
      }
      NextHeaderAligned(base, seg, offset);
      var nameSize, descSize := ReadWord(seg, offset), ReadWord(seg, offset + 4);
      offset := offset + NOTE_HEADER + AlignUp(nameSize) + AlignUp(descSize);
    }
    r := Nothing;
  }

  /** The headers looked at, from `at` to the first match. */
  predicate ReachesMatch(seg: seq<byte>, at: nat, ats: seq<nat>) {
    && ats != [] && ats[0] == at
    && (forall k | 0 <= k < |ats| :: ats[k] + NOTE_HEADER + |GNU_NOTE_NAME| <= |seg|)
    && (forall k | 0 <= k < |ats| :: IsMatch(seg, ats[k]) <==> k == |ats| - 1)
    && (forall k | 0 <= k < |ats| - 1 :: ats[k + 1] == NextAt(seg, ats[k]))
  }

  lemma {:induction false} MatchReached(seg: seq<byte>, at: nat) returns (ats: seq<nat>)
    requires FirstMatch(seg, at).Some?
    ensures ReachesMatch(seg, at, ats) && ats[|ats| - 1] == FirstMatch(seg, at).value
    decreases if at <= |seg| then |seg| - at else 0
  {
    hide IsMatch, NextAt;
    if IsMatch(seg, at) {
      ats := [at];
    } else {
      var more := MatchReached(seg, NextAt(seg, at));
      ats := [at] + more;
      assert forall k | 0 < k < |ats| :: ats[k] == more[k - 1];
    }
  }

  lemma {:induction false} ReachedIsFirst(seg: seq<byte>, at: nat, ats: seq<nat>)
    requires ReachesMatch(seg, at, ats)
    ensures FirstMatch(seg, at) == Some(ats[|ats| - 1])
    decreases |ats|
  {
    if |ats| > 1 {
      assert ats[1] == NextAt(seg, ats[0]);
      ReachedIsFirst(seg, ats[1], ats[1..]);
    }
  }

  /** For any bytes: the walk reads outside its segment if and only if the headers, each placed
      by the one before, lead to a first match whose descriptor ends past the segment. */
  lemma LeavesExactly(base: nat, seg: seq<byte>)
    requires base > 0 && base % 4 == 0
    ensures WalkOf(base, seg).Leaves? <==>
              exists ats :: ReachesMatch(seg, 0, ats) && DescriptorEnd(seg, ats[|ats| - 1]) > |seg|
  {
    if WalkOf(base, seg).Leaves? {
      var ats := MatchReached(seg, 0);
    }
    forall ats | ReachesMatch(seg, 0, ats) ensures FirstMatch(seg, 0) == Some(ats[|ats| - 1]) {
      ReachedIsFirst(seg, 0, ats);
    }
  }

  /** For any bytes: a walk fails at once exactly when there is a header to read at an address that
      is null or not a multiple of four; otherwise it finds the bytes of the first match's
      descriptor when they lie inside, and nothing when there is no match. */
  lemma WalkExactly(base: nat, seg: seq<byte>, ats: seq<nat>)
    ensures WalkOf(base, seg).Aborts? <==> |seg| >= 16 && (base == 0 || base % 4 != 0)
    ensures !WalkOf(base, seg).Aborts? && ReachesMatch(seg, 0, ats) && DescriptorEnd(seg, ats[|ats| - 1]) <= |seg| ==>
              WalkOf(base, seg) == Found(seg[ats[|ats| - 1] + 16..DescriptorEnd(seg, ats[|ats| - 1])])
    ensures WalkOf(base, seg).Nothing? ==> !ReachesMatch(seg, 0, ats)
  {
    if ReachesMatch(seg, 0, ats) {
      ReachedIsFirst(seg, 0, ats);
    }
  }

  /** A segment of one note that promises twenty bytes of descriptor and ends after the name. */
  const CUT_SHORT: seq<byte> := [4, 0, 0, 0, 20, 0, 0, 0, 3, 0, 0, 0, 71, 78, 85, 0]

  lemma CutShortLeaves(base: nat)
    requires HeaderPointer(base)
    ensures WalkOf(base, CUT_SHORT) == Leaves(0)
  {
    assert CUT_SHORT[12..16] == GNU_NOTE_NAME;
  }

  // ---------- the walk over well-formed notes ----------

  /** What the test means at a note. */
  lemma MatchMeans(seg: seq<byte>, at: nat, n: Note)
    requires Representable(n) && at + |Encode(n)| <= |seg| && seg[at..at + |Encode(n)|] == Encode(n)
    requires at + NOTE_HEADER + |GNU_NOTE_NAME| <= |seg|
    ensures IsBuildId(n) <==> IsMatch(seg, at)
    ensures IsBuildId(n) ==> DescriptorEnd(seg, at) <= |seg| && seg[at + 16..DescriptorEnd(seg, at)] == n.desc
    ensures NextAt(seg, at) == at + EncodedSize(n)
  {
    NoteAt(seg, at, n);
    AlignUpIsLeast(|n.desc|, 0);
    if |n.name| == 4 {
      assert AlignUp(|n.name|) == 4;
    }
  }

  lemma FirstNote(seg: seq<byte>, at: nat, notes: seq<Note>)
    requires Holds(seg, at, notes) && at + NOTE_HEADER + |GNU_NOTE_NAME| <= |seg|
    ensures notes != [] && Holds(seg, NextAt(seg, at), notes[1..])
    ensures IsBuildId(notes[0]) <==> IsMatch(seg, at)
    ensures IsBuildId(notes[0]) ==>
            DescriptorEnd(seg, at) <= |seg| && seg[at + 16..DescriptorEnd(seg, at)] == notes[0].desc
  {
    NoteToRead(seg, at, notes);
    HoldsFirst(seg, at, notes);
    MatchMeans(seg, at, notes[0]);
  }

  /** The build id of the notes is the descriptor of the match, inside the segment. */
  predicate Tells(seg: seq<byte>, found: Option<nat>, notes: seq<Note>)
    requires found.Some? ==> found.value + NOTE_HEADER + |GNU_NOTE_NAME| <= |seg|
  {
    match found
    case None => FirstBuildId(notes) == None
    case Some(at) => DescriptorEnd(seg, at) <= |seg|
                     && FirstBuildId(notes) == Some(seg[at + 16..DescriptorEnd(seg, at)])
  }

  lemma {:induction false} FirstMatchOfNotes(seg: seq<byte>, at: nat, notes: seq<Note>)
    requires Holds(seg, at, notes)
    ensures Tells(seg, FirstMatch(seg, at), notes)
    decreases |notes|
  {
    if at + NOTE_HEADER + |GNU_NOTE_NAME| > |seg| {
      ShortSegmentHasNone(seg, at, notes);
    } else {
      FirstNote(seg, at, notes);
      if !IsMatch(seg, at) {
        FirstMatchOfNotes(seg, NextAt(seg, at), notes[1..]);
      }
    }
  }

  /** Over every well-formed sequence of notes, laid out with four-byte alignment and followed by
      less than one note of padding, the walk stays in the segment and finds the first build id. */
  lemma WellFormedWalk(base: nat, seg: seq<byte>, notes: seq<Note>)
    requires HeaderPointer(base) && Holds(seg, 0, notes)
    ensures WalkOf(base, seg) == match FirstBuildId(notes) case None => Nothing case Some(desc) => Found(desc)
  {
    FirstMatchOfNotes(seg, 0, notes);
  }

  // ---------- program headers ----------

  datatype LoadedSegment = LoadedSegment(fileOffset: nat, memoryOffset: nat, memorySize: nat)
  datatype ProgramHeader = Load(segment: LoadedSegment) | Notes(address: nat, content: seq<byte>) | Other

  /** A walk that ends the whole reading. */
  predicate Fatal(w: Walk) {
    w.Aborts? || w.Leaves?
  }

  function Loads(headers: seq<ProgramHeader>): seq<LoadedSegment> {
    if headers == [] then []
    else
      var before := Loads(headers[..|headers| - 1]);
      if headers[|headers| - 1].Load? then before + [headers[|headers| - 1].segment] else before
  }

  /** The first fatal walk over a note segment, or else the last one that found something. */
  function LastWalk(headers: seq<ProgramHeader>): Walk {
    if headers == [] then Nothing
    else
      var before, h := LastWalk(headers[..|headers| - 1]), headers[|headers| - 1];
      if Fatal(before) || !h.Notes? || WalkOf(h.address, h.content).Nothing? then before
      else WalkOf(h.address, h.content)
  }

  /** The loaded segments are those of the load headers, in order. */
  lemma {:induction false} LoadsAre(headers: seq<ProgramHeader>) returns (at: seq<nat>)
    ensures P.Places(at, |headers|) && |at| == |Loads(headers)|
    ensures forall j | 0 <= j < |at| :: headers[at[j]] == Load(Loads(headers)[j])
    ensures forall i: nat | i < |headers| :: i in at <==> headers[i].Load?
  {
    at := [];
    if headers != [] {
      var n := |headers| - 1;
      at := LoadsAre(headers[..n]);
      assert forall i: nat | i < n :: headers[..n][i] == headers[i];
      if headers[n].Load? {
        at := at + [n];
      }
    }
  }

  /** The walk of a header; other headers than notes have nothing to find. */
  function WalkAt(h: ProgramHeader): Walk {
    if h.Notes? then WalkOf(h.address, h.content) else Nothing
  }

  /** Which walk decides: the first one that ends the reading, or else the last that found
      something, or none when there is nothing to find. */
  predicate Decides(headers: seq<ProgramHeader>, k: nat)
    requires k < |headers|
  {
    if Fatal(WalkAt(headers[k])) then forall j | 0 <= j < k :: !Fatal(WalkAt(headers[j]))
    else
      && WalkAt(headers[k]).Found? && (forall j | 0 <= j < |headers| :: !Fatal(WalkAt(headers[j])))
      && forall j | k < j < |headers| :: WalkAt(headers[j]) == Nothing
  }

  lemma {:induction false} LastWalkIs(headers: seq<ProgramHeader>) returns (k: nat)
    ensures LastWalk(headers) == Nothing ==> forall j | 0 <= j < |headers| :: WalkAt(headers[j]) == Nothing
    ensures LastWalk(headers) != Nothing ==>
              k < |headers| && Decides(headers, k) && LastWalk(headers) == WalkAt(headers[k])
  {
    hide WalkOf;
    k := 0;
    if headers != [] {
      var n := |headers| - 1;
      k := LastWalkIs(headers[..n]);
      assert forall j | 0 <= j < n :: headers[..n][j] == headers[j];
      if !Fatal(LastWalk(headers[..n])) && WalkAt(headers[n]) != Nothing {
        k := n;
      }
    }
  }

  method ReadHeaders(headers: seq<ProgramHeader>) returns (segments: seq<LoadedSegment>, r: Walk)
    ensures r == LastWalk(headers)
    ensures !Fatal(r) ==> segments == Loads(headers)
  {
    segments, r := [], Nothing;
    for k := 0 to |headers|
      invariant segments == Loads(headers[..k]) && r == LastWalk(headers[..k]) && !Fatal(r)
    {
      assert headers[..k + 1][..k] == headers[..k];
      match headers[k]
      case Load(segment) => segments := segments + [segment];
      case Notes(address, content) =>
        var found := WalkNotes(address, content);
        if Fatal(found) {
          FatalStays(headers, k + 1);
          return segments, found;
        }
        if found.Found? {
          r := found;
        }
      case Other =>
    }
    assert headers[..|headers|] == headers;
  }

  lemma {:induction false} FatalStays(headers: seq<ProgramHeader>, k: nat)
    requires k <= |headers| && Fatal(LastWalk(headers[..k]))
    ensures LastWalk(headers) == LastWalk(headers[..k])
    decreases |headers|
  {
    if k < |headers| {
      assert headers[..|headers| - 1][..k] == headers[..k];
      FatalStays(headers[..|headers| - 1], k);
    } else {
      assert headers[..k] == headers;
    }
  }

  /** The header is no note segment, or an aligned one that holds `notes`. */
  ghost predicate WellFormedHeader(h: ProgramHeader, notes: seq<Note>) {
    if h.Notes? then HeaderPointer(h.address) && Holds(h.content, 0, notes) else notes == []
  }

  /** The build id of the last segment that has one. */
  function LastBuildId(notes: seq<seq<Note>>): Option<seq<byte>> {
    if notes == [] then None
    else if FirstBuildId(notes[|notes| - 1]).Some? then FirstBuildId(notes[|notes| - 1])
    else LastBuildId(notes[..|notes| - 1])
  }

  /** With well-formed note segments the last one that holds a build id decides. */
  lemma {:induction false} WellFormedHeaders(headers: seq<ProgramHeader>, notes: seq<seq<Note>>)
    requires |notes| == |headers| && forall k :: 0 <= k < |headers| ==> WellFormedHeader(headers[k], notes[k])
    ensures LastWalk(headers) == match LastBuildId(notes) case None => Nothing case Some(desc) => Found(desc)
  {
    if headers != [] {
      var n := |headers| - 1;
      WellFormedHeaders(headers[..n], notes[..n]);
      assert WellFormedHeader(headers[n], notes[n]);
      if headers[n].Notes? {
        WellFormedWalk(headers[n].address, headers[n].content, notes[n]);
      }
    }
  }

  // ---------- the mapping table ----------

  datatype SharedObject = SharedObject(baseAddress: nat, pathName: string, buildId: Option<seq<byte>>,
                                       loadedSegments: seq<LoadedSegment>)

  /** The mapping of one loaded segment; the start wraps around the address space. */
  function MappingOf(o: SharedObject, s: LoadedSegment): P.Mapping {
    var start := (o.baseAddress + s.memoryOffset) % ADDRESS_SPACE;
    P.Mapping(start, start + s.memorySize, s.fileOffset, o.pathName, o.buildId)
  }

  function ObjectMappings(o: SharedObject, n: nat): seq<P.Mapping>
    requires n <= |o.loadedSegments|
  {
    seq(n, k requires 0 <= k < n => MappingOf(o, o.loadedSegments[k]))
  }

  function AllMappings(objects: seq<SharedObject>): seq<P.Mapping> {
    if objects == [] then []
    else AllMappings(objects[..|objects| - 1])
         + ObjectMappings(objects[|objects| - 1], |objects[|objects| - 1].loadedSegments|)
  }

  method BuildMappings(objects: seq<SharedObject>) returns (mappings: seq<P.Mapping>)
    ensures mappings == AllMappings(objects)
  {
    mappings := [];
    for i := 0 to |objects|
      invariant mappings == AllMappings(objects[..i])
    {
      assert objects[..i + 1][..i] == objects[..i];
      var o := objects[i];
      ghost var before := mappings;
      for j := 0 to |o.loadedSegments|
        invariant mappings == before + ObjectMappings(o, j)
      {
        assert ObjectMappings(o, j + 1) == ObjectMappings(o, j) + [MappingOf(o, o.loadedSegments[j])];
        mappings := mappings + [MappingOf(o, o.loadedSegments[j])];
      }
    }
    assert objects[..|objects|] == objects;
  }

  /** No two mappings overlap. */
  predicate Disjoint(mappings: seq<P.Mapping>) {
    forall i, j | 0 <= i < j < |mappings| ::
      mappings[i].memoryEnd <= mappings[j].memoryStart || mappings[j].memoryEnd <= mappings[i].memoryStart
  }

  /** How many segments come before those of object `i`. */
  function SegmentsBefore(objects: seq<SharedObject>, i: nat): nat
    requires i <= |objects|
  {
    if i == 0 then 0 else SegmentsBefore(objects, i - 1) + |objects[i - 1].loadedSegments|
  }

  lemma {:induction false} SegmentsBeforePrefix(objects: seq<SharedObject>, n: nat, i: nat)
    requires i <= n <= |objects|
    ensures SegmentsBefore(objects[..n], i) == SegmentsBefore(objects, i)
  {
    if i > 0 {
      SegmentsBeforePrefix(objects, n, i - 1);
    }
  }

  lemma {:induction false} MappingCount(objects: seq<SharedObject>)
    ensures |AllMappings(objects)| == SegmentsBefore(objects, |objects|)
  {
    if objects != [] {
      var n := |objects| - 1;
      MappingCount(objects[..n]);
      SegmentsBeforePrefix(objects, n, n);
    }
  }

  lemma {:induction false} SegmentPlace(objects: seq<SharedObject>, i: nat, j: nat)
    requires i < |objects| && j < |objects[i].loadedSegments|
    ensures var k := SegmentsBefore(objects, i) + j;
            k < |AllMappings(objects)| && AllMappings(objects)[k] == MappingOf(objects[i], objects[i].loadedSegments[j])
  {
    var n := |objects| - 1;
    SegmentsBeforePrefix(objects, n, i);
    if i == n {
      MappingCount(objects[..n]);
    } else {
      assert objects[..n][i] == objects[i];
      SegmentPlace(objects[..n], i, j);
    }
  }

  /** The table has one entry for each loaded segment and no other, in order: it starts where the
      object and the segment put it, wrapping around the address space, and is as long as the
      segment. */
  lemma SegmentIsMapped(objects: seq<SharedObject>, i: nat, j: nat) returns (k: nat)
    requires i < |objects| && j < |objects[i].loadedSegments|
    ensures |AllMappings(objects)| == SegmentsBefore(objects, |objects|)
    ensures k == SegmentsBefore(objects, i) + j < |AllMappings(objects)|
    ensures var o, s, m := objects[i], objects[i].loadedSegments[j], AllMappings(objects)[k];
            && m.memoryStart == (o.baseAddress + s.memoryOffset) % 18446744073709551616
            && m.memoryEnd == m.memoryStart + s.memorySize && m.fileOffset == s.fileOffset
            && m.pathname == o.pathName && m.buildId == o.buildId
  {
    k := SegmentsBefore(objects, i) + j;
    MappingCount(objects);
    SegmentPlace(objects, i, j);
  }

  /** Translation undoes loading: the byte at offset `x` of a loaded segment is shown at its
      place in the file and under its own object, when the loader put no two segments in one
      place. */
  lemma TranslationUndoesLoading(objects: seq<SharedObject>, i: nat, j: nat, x: nat) returns (k: nat)
    requires i < |objects| && j < |objects[i].loadedSegments| && Disjoint(AllMappings(objects))
    requires x < objects[i].loadedSegments[j].memorySize
    requires objects[i].loadedSegments[j].fileOffset + x < ADDRESS_SPACE
    ensures var m, addr := AllMappings(objects),
            (objects[i].baseAddress + objects[i].loadedSegments[j].memoryOffset) % ADDRESS_SPACE + x;
            && P.Translate(m, addr) == objects[i].loadedSegments[j].fileOffset + x
            && k < |m| && P.MappingIdOf(m, addr) == k + 1
            && m[k].pathname == objects[i].pathName && m[k].buildId == objects[i].buildId
  {
    k := SegmentIsMapped(objects, i, j);
    var m, addr := AllMappings(objects),
      (objects[i].baseAddress + objects[i].loadedSegments[j].memoryOffset) % ADDRESS_SPACE + x;
    assert P.Contains(m[k], addr);
    var found := P.FindMapping(m, addr);
    assert found.value == k;
  }
}
