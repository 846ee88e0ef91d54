/** Printing `smaps` text, and reading it back. */
module SmapsPrinter {
  import opened MappingLines
  import opened Smaps
  import opened Text
  import opened Wrappers

  /** A body line as printed: an amount, the flags, or a line that says nothing. */
  datatype Item =
    | SizeItem(key: string, amount: nat, kilobytes: bool, gap: string)
    | FlagsItem(flags: seq<string>)
    | OtherItem(line: string)

  datatype Entry = Entry(mapping: Mapping, spacing: Spacing, items: seq<Item>)

  /** No colon, dash or line end. */
  predicate IsPlain(s: string) {
    ':' !in s && '-' !in s && '\n' !in s
  }

  predicate ValidItem(item: Item) {
    match item
    case SizeItem(key, amount, kilobytes, gap) =>
      && IsPlain(key) && key != "VmFlags" && amount < U64_LIMIT && (kilobytes ==> amount % 1024 == 0)
      && '\n' !in gap && AllSpace(gap)
    case FlagsItem(flags) => forall k | 0 <= k < |flags| :: IsPlain(flags[k]) && ' ' !in flags[k]
    case OtherItem(line) => '\n' !in line && ReadMapping(line).None? && !OneColon(line)
  }

  predicate ValidEntry(e: Entry) {
    && ValidMapping(e.mapping) && ValidSpacing(e.spacing) && OneLine(e.spacing)
    && forall k | 0 <= k < |e.items| :: ValidItem(e.items[k])
  }

  predicate OneLine(w: Spacing) {
    && '\n' !in w.before && '\n' !in w.afterEnd && '\n' !in w.afterPerms && '\n' !in w.afterOffset
    && '\n' !in w.afterDevice && '\n' !in w.beforePath && '\n' !in w.after
  }

  function PrintAmount(amount: nat, kilobytes: bool): string {
    if kilobytes then Print(amount / 1024, 10) + " kB" else Print(amount, 10)
  }

  function PrintFlags(flags: seq<string>): string {
    if flags == [] then [] else [' '] + (flags[0] + PrintFlags(flags[1..]))
  }

  function PrintItem(item: Item): string {
    match item
    case SizeItem(key, amount, kilobytes, gap) => key + ([':'] + (gap + PrintAmount(amount, kilobytes)))
    case FlagsItem(flags) => "VmFlags" + ([':'] + PrintFlags(flags))
    case OtherItem(line) => line
  }

  function PrintItems(items: seq<Item>): seq<string> {
    if items == [] then [] else [PrintItem(items[0])] + PrintItems(items[1..])
  }

  function PrintEntry(e: Entry): Group {
    Group(PrintMapping(e.mapping, e.spacing), PrintItems(e.items))
  }

  function PrintEntries(entries: seq<Entry>): seq<Group> {
    if entries == [] then [] else [PrintEntry(entries[0])] + PrintEntries(entries[1..])
  }

  function PrintSmaps(entries: seq<Entry>): string
    requires entries != []
  {
    Join(Unsplit(PrintEntries(entries)), '\n')
  }

  // ---------- what printed lines say ----------

  function KnownFlags(names: Names, flags: seq<string>): set<string> {
    set f | f in flags && f in names.flags
  }

  /** What a printed line is read as. */
  function Meaning(names: Names, item: Item): BodyLine {
    match item
    case SizeItem(key, amount, _, _) => Size(key, amount)
    case FlagsItem(flags) => Flags(KnownFlags(names, flags))
    case OtherItem(_) => Skipped
  }

  /** The lines agree with the record, in whatever order and however often each is repeated; what
      they do not mention is zero or empty. */
  predicate Describes(names: Names, items: seq<Item>, s: SMap) {
    && s.sizes.Keys == names.sizes
    && (forall k | 0 <= k < |items| :: Agrees(names, items[k], s))
    && (forall key | key in names.sizes :: s.sizes[key] == 0 || MentionsSize(items, key))
    && (s.flags == {} || MentionsFlags(items))
  }

  predicate Agrees(names: Names, item: Item, s: SMap)
    requires s.sizes.Keys == names.sizes
  {
    && (item.SizeItem? && item.key in names.sizes ==> item.amount == s.sizes[item.key])
    && (item.FlagsItem? ==> KnownFlags(names, item.flags) == s.flags)
  }

  predicate MentionsSize(items: seq<Item>, key: string) {
    exists k | 0 <= k < |items| :: items[k].SizeItem? && items[k].key == key
  }

  predicate MentionsFlags(items: seq<Item>) {
    exists k | 0 <= k < |items| :: items[k].FlagsItem?
  }

  lemma AmountEnds(amount: nat, kilobytes: bool)
    ensures var s := PrintAmount(amount, kilobytes);
            s != [] && !IsTrimmed(s[0]) && !IsTrimmed(s[|s| - 1]) && IsPlain(s)
  {
    PrintIsRun(amount, 10);
    PrintIsRun(amount / 1024, 10);
    RunIsPlain(Print(amount, 10));
    RunIsPlain(Print(amount / 1024, 10));
    assert IsPlain(" kB");
  }

  lemma RunIsPlain(s: string)
    requires IsRun(s, Digits)
    ensures IsPlain(s) && !IsTrimmed(s[0]) && !IsTrimmed(s[|s| - 1])
  {
  }

  lemma ReadBytes(digits: string, n: nat)
    requires IsRun(digits, Digits) && ParseUnsigned(digits, 10) == Some(n)
    ensures ReadAmount(digits) == Some(n)
  {
    assert InClass(digits[|digits| - 1], Digits);
    if InKilobytes(digits) { KilobyteEnd(digits); }
  }

  lemma KilobyteEnd(s: string)
    requires InKilobytes(s)
    ensures s[|s| - 1] == 'B'
  {
    assert s[|s| - 2..][1] == s[|s| - 1];
  }

  lemma {:induction false} KilobyteParts(digits: string)
    ensures var s := digits + " kB"; InKilobytes(s) && s[..|s| - 2] == digits + " "
  {
    var s := digits + " kB";
    assert s[|s| - 2..] == "kB";
  }

  lemma {:induction false} TrimSpaceAfter(digits: string)
    requires IsRun(digits, Digits)
    ensures Trim(digits + " ") == digits
  {
    RunIsPlain(digits);
    TrimPadding([], digits, " ");
    assert [] + digits + " " == digits + " ";
  }

  lemma ReadKilobytes(digits: string, n: nat)
    requires IsRun(digits, Digits) && ParseUnsigned(digits, 10) == Some(n) && n * 1024 < U64_LIMIT
    ensures ReadAmount(digits + " kB") == Some(n * 1024)
  {
    KilobyteParts(digits);
    TrimSpaceAfter(digits);
    assert InClass(digits[|digits| - 1], Digits);
  }

  lemma ReadAmountText(amount: nat, kilobytes: bool)
    requires amount < U64_LIMIT && (kilobytes ==> amount % 1024 == 0)
    ensures ReadAmount(PrintAmount(amount, kilobytes)) == Some(amount)
  {
    var n := if kilobytes then amount / 1024 else amount;
    PrintIsRun(n, 10);
    ParseOfPrint(n, 10);
    if kilobytes {
      ReadKilobytes(Print(n, 10), n);
    } else {
      ReadBytes(Print(n, 10), n);
    }
  }

  lemma ReadPrintedAmount(amount: nat, kilobytes: bool, gap: string)
    requires amount < U64_LIMIT && (kilobytes ==> amount % 1024 == 0) && AllSpace(gap)
    ensures ReadAmount(Trim(gap + PrintAmount(amount, kilobytes))) == Some(amount)
  {
    var text := PrintAmount(amount, kilobytes);
    AmountEnds(amount, kilobytes);
    TrimPadding(gap, text, []);
    assert gap + text + [] == gap + text;
    ReadAmountText(amount, kilobytes);
  }

  lemma {:induction false} SplitFlags(first: string, rest: seq<string>)
    requires ' ' !in first && forall k | 0 <= k < |rest| :: ' ' !in rest[k]
    ensures Split(first + PrintFlags(rest), ' ') == [first] + rest
    decreases |rest|
  {
    if rest == [] {
      SplitPlain(first, ' ');
      assert first + PrintFlags(rest) == first;
    } else {
      SplitFirst(first, rest[0] + PrintFlags(rest[1..]), ' ');
      SplitFlags(rest[0], rest[1..]);
      assert [rest[0]] + rest[1..] == rest;
    }
  }

  lemma {:induction false} ReadPrintedFlags(names: Names, flags: seq<string>)
    requires "" !in names.flags && forall k | 0 <= k < |flags| :: ' ' !in flags[k]
    ensures FlagsOf(names.flags, PrintFlags(flags)) == KnownFlags(names, flags)
  {
    SplitFlags([], flags);
    assert [] + PrintFlags(flags) == PrintFlags(flags);
  }

  lemma {:induction false} FlagsArePlain(flags: seq<string>)
    requires forall k | 0 <= k < |flags| :: IsPlain(flags[k])
    ensures IsPlain(PrintFlags(flags))
  {
    if flags != [] {
      FlagsArePlain(flags[1..]);
      assert IsPlain([' ']) && IsPlain(flags[0]);
    }
  }

  lemma SizeLine(names: Names, key: string, amount: nat, kilobytes: bool, gap: string)
    requires ValidItem(SizeItem(key, amount, kilobytes, gap))
    ensures var line := key + ([':'] + (gap + PrintAmount(amount, kilobytes)));
            '-' !in line && '\n' !in line && ReadBodyLine(names, line) == Size(key, amount)
  {
    AmountEnds(amount, kilobytes);
    SpaceIsPlain(gap);
    TwoParts(key, gap + PrintAmount(amount, kilobytes));
    ReadPrintedAmount(amount, kilobytes, gap);
  }

  lemma SpaceIsPlain(gap: string)
    requires AllSpace(gap)
    ensures ':' !in gap && '-' !in gap
  {
  }

  lemma {:induction false} FlagsLine(names: Names, flags: seq<string>)
    requires "" !in names.flags && ValidItem(FlagsItem(flags))
    ensures var line := "VmFlags" + ([':'] + PrintFlags(flags));
            '-' !in line && '\n' !in line && ReadBodyLine(names, line) == Flags(KnownFlags(names, flags))
  {
    FlagsArePlain(flags);
    assert IsPlain("VmFlags");
    TwoParts("VmFlags", PrintFlags(flags));
    ReadPrintedFlags(names, flags);
  }

  lemma ReadPrintedItem(names: Names, item: Item)
    requires "" !in names.flags && ValidItem(item)
    ensures ReadBodyLine(names, PrintItem(item)) == Meaning(names, item)
    ensures ReadMapping(PrintItem(item)).None? && '\n' !in PrintItem(item)
  {
    match item {
      case SizeItem(key, amount, kilobytes, gap) =>
        SizeLine(names, key, amount, kilobytes, gap);
        if ReadMapping(PrintItem(item)).Some? { HeaderHasDash(PrintItem(item)); }
      case FlagsItem(flags) =>
        FlagsLine(names, flags);
        if ReadMapping(PrintItem(item)).Some? { HeaderHasDash(PrintItem(item)); }
      case OtherItem(line) =>
        OtherLinesSkipped(names, line);
    }
  }

  // ---------- printed entries ----------

  predicate NoLineEnd(lines: seq<string>) {
    forall k | 0 <= k < |lines| :: '\n' !in lines[k]
  }

  lemma {:induction false} PrintedBody(names: Names, items: seq<Item>)
    requires "" !in names.flags && forall k | 0 <= k < |items| :: ValidItem(items[k])
    ensures HasNoHeader(PrintItems(items)) && WellFormed(names, PrintItems(items))
    ensures NoLineEnd(PrintItems(items))
  {
    if items != [] {
      ReadPrintedItem(names, items[0]);
      PrintedBody(names, items[1..]);
    }
  }

  /** The last amount printed under a key is one of the items', and there is one if any item has it. */
  lemma {:induction false} LastPrintedSize(names: Names, items: seq<Item>, key: string)
    requires "" !in names.flags && forall k | 0 <= k < |items| :: ValidItem(items[k])
    ensures var last := LastSize(names, PrintItems(items), key);
            if last.None? then !MentionsSize(items, key)
            else exists k | 0 <= k < |items| ::
                 items[k].SizeItem? && items[k].key == key && items[k].amount == last.value
  {
    if items != [] {
      ReadPrintedItem(names, items[0]);
      LastPrintedSize(names, items[1..], key);
      assert forall k | 0 < k < |items| :: items[k] == items[1..][k - 1];
      assert forall k | 0 <= k < |items[1..]| :: items[1..][k] == items[k + 1];
    }
  }

  lemma {:induction false} LastPrintedFlags(names: Names, items: seq<Item>)
    requires "" !in names.flags && forall k | 0 <= k < |items| :: ValidItem(items[k])
    ensures var last := LastFlags(names, PrintItems(items));
            if last.None? then !MentionsFlags(items)
            else exists k | 0 <= k < |items| :: items[k].FlagsItem? && KnownFlags(names, items[k].flags) == last.value
  {
    if items != [] {
      ReadPrintedItem(names, items[0]);
      LastPrintedFlags(names, items[1..]);
      assert forall k | 0 < k < |items| :: items[k] == items[1..][k - 1];
      assert forall k | 0 <= k < |items[1..]| :: items[1..][k] == items[k + 1];
    }
  }

  lemma {:induction false} BodyRoundTrip(names: Names, mapping: Mapping, items: seq<Item>, s: SMap)
    requires "" !in names.flags && forall k | 0 <= k < |items| :: ValidItem(items[k])
    requires Describes(names, items, s) && s.mapping == mapping
    ensures ReadBody(names, Blank(names, mapping), PrintItems(items)) == Some(s)
  {
    PrintedBody(names, items);
    LastLineWins(names, Blank(names, mapping), PrintItems(items));
    var r := ReadBody(names, Blank(names, mapping), PrintItems(items)).value;
    LastPrintedFlags(names, items);
    assert r.flags == s.flags;
    forall key | key in names.sizes ensures r.sizes[key] == s.sizes[key] {
      LastPrintedSize(names, items, key);
    }
    assert r.sizes == s.sizes;
  }

  lemma EntryRoundTrip(names: Names, e: Entry, s: SMap)
    requires "" !in names.flags && ValidEntry(e) && Describes(names, e.items, s) && s.mapping == e.mapping
    ensures ReadGroup(names, PrintEntry(e)) == Some(s)
  {
    HeaderRoundTrip(e.mapping, e.spacing);
    BodyRoundTrip(names, e.mapping, e.items, s);
  }

  lemma {:induction false} ConcatKeepsOut(texts: seq<string>, c: char)
    requires forall k | 0 <= k < |texts| :: c !in texts[k]
    ensures c !in Concat(texts)
  {
    if texts != [] {
      ConcatKeepsOut(texts[1..], c);
    }
  }

  lemma RunKeepsOutNewline(text: string, class_: Class)
    requires IsRun(text, class_) && class_ != Space
    ensures '\n' !in text
  {
  }

  lemma HeaderIsOneLine(m: Mapping, w: Spacing)
    requires ValidMapping(m) && ValidSpacing(w) && OneLine(w)
    ensures '\n' !in PrintMapping(m, w)
  {
    var texts := HeaderTexts(m, w);
    HeaderSpells(m, w);
    PatternIsSeparated();
    forall k | 0 <= k < 13 ensures '\n' !in texts[k] {
      assert IsRun(texts[k], PATTERN[k]);
      if PATTERN[k] != Space {
        RunKeepsOutNewline(texts[k], PATTERN[k]);
      }
    }
    ConcatKeepsOut(texts, '\n');
  }

  /** The records of the entries, in order. */
  predicate DescribesEach(names: Names, entries: seq<Entry>, smaps: seq<SMap>) {
    && |entries| == |smaps|
    && forall k | 0 <= k < |entries| ::
       smaps[k].mapping == entries[k].mapping && Describes(names, entries[k].items, smaps[k])
  }

  lemma {:induction false} PrintedGroups(names: Names, entries: seq<Entry>)
    requires "" !in names.flags && forall k | 0 <= k < |entries| :: ValidEntry(entries[k])
    ensures IsGrouping(PrintEntries(entries)) && |PrintEntries(entries)| == |entries|
    ensures entries != [] ==> ReadMapping(PrintEntries(entries)[0].header).Some?
  {
    if entries != [] {
      var e := entries[0];
      PrintedGroups(names, entries[1..]);
      HeaderRoundTrip(e.mapping, e.spacing);
      PrintedBody(names, e.items);
      OneMoreGroup(PrintEntry(e), PrintEntries(entries[1..]));
    }
  }

  lemma {:induction false} PrintedLines(names: Names, entries: seq<Entry>)
    requires "" !in names.flags && forall k | 0 <= k < |entries| :: ValidEntry(entries[k])
    ensures NoLineEnd(Unsplit(PrintEntries(entries)))
  {
    if entries != [] {
      var e := entries[0];
      PrintedLines(names, entries[1..]);
      HeaderIsOneLine(e.mapping, e.spacing);
      PrintedBody(names, e.items);
      var more := PrintEntries(entries[1..]);
      assert PrintEntries(entries)[1..] == more;
      assert Unsplit(PrintEntries(entries))
             == [PrintMapping(e.mapping, e.spacing)] + PrintItems(e.items) + Unsplit(more);
    }
  }

  lemma {:induction false} PrintedEntries(names: Names, entries: seq<Entry>, smaps: seq<SMap>)
    requires "" !in names.flags && (forall k | 0 <= k < |entries| :: ValidEntry(entries[k]))
    requires DescribesEach(names, entries, smaps)
    ensures EntryForEach(names, PrintEntries(entries), smaps) && AllEntries(names, PrintEntries(entries))
  {
    if entries != [] {
      EntryRoundTrip(names, entries[0], smaps[0]);
      EntryOfGroup(names, PrintEntry(entries[0]));
      PrintedEntries(names, entries[1..], smaps[1..]);
      EachOfOneMore(names, PrintEntry(entries[0]), PrintEntries(entries[1..]), smaps[0], smaps[1..]);
      AllOfOneMore(names, PrintEntry(entries[0]), PrintEntries(entries[1..]));
      assert [smaps[0]] + smaps[1..] == smaps;
    }
  }

  lemma {:induction false} OneReading(names: Names, groups: seq<Group>, r: seq<SMap>, s: seq<SMap>)
    requires EntryForEach(names, groups, r) && EntryForEach(names, groups, s)
    ensures r == s
  {
    if groups != [] {
      OneReading(names, groups[1..], r[1..], s[1..]);
      assert r == [r[0]] + r[1..] && s == [s[0]] + s[1..];
    }
  }

  // ---------- a final line end ----------

  /** The text of these entries has one more line end. */
  function WithLineEnd(entries: seq<Entry>): seq<Entry>
    requires entries != []
  {
    var last := entries[|entries| - 1];
    entries[..|entries| - 1] + [last.(items := last.items + [OtherItem("")])]
  }

  lemma {:induction false} PrintItemsAppend(items: seq<Item>, item: Item)
    ensures PrintItems(items + [item]) == PrintItems(items) + [PrintItem(item)]
  {
    if items != [] {
      assert (items + [item])[1..] == items[1..] + [item];
      PrintItemsAppend(items[1..], item);
    }
  }

  lemma {:induction false} PrintEntriesAt(entries: seq<Entry>, k: nat)
    requires k < |entries|
    ensures |PrintEntries(entries)| == |entries| && PrintEntries(entries)[k] == PrintEntry(entries[k])
  {
    if k > 0 {
      PrintEntriesAt(entries[1..], k - 1);
    } else if |entries| > 1 {
      PrintEntriesAt(entries[1..], 0);
    }
  }

  function OneMoreLine(groups: seq<Group>, line: string): seq<Group>
    requires groups != []
  {
    var last := groups[|groups| - 1];
    groups[..|groups| - 1] + [last.(body := last.body + [line])]
  }

  lemma {:induction false} UnsplitOneMoreLine(groups: seq<Group>, line: string)
    requires groups != []
    ensures Unsplit(OneMoreLine(groups, line)) == Unsplit(groups) + [line]
  {
    var longer := OneMoreLine(groups, line);
    if |groups| == 1 {
      assert longer[1..] == [] && groups[1..] == [];
    } else {
      assert longer[1..] == OneMoreLine(groups[1..], line);
      UnsplitOneMoreLine(groups[1..], line);
    }
  }

  lemma LinesWithLineEnd(entries: seq<Entry>)
    requires entries != []
    ensures Unsplit(PrintEntries(WithLineEnd(entries))) == Unsplit(PrintEntries(entries)) + [""]
  {
    hide PrintMapping, PrintEntries, PrintItems;
    var groups, longer := PrintEntries(entries), PrintEntries(WithLineEnd(entries));
    var n := |entries| - 1;
    PrintItemsAppend(entries[n].items, OtherItem(""));
    PrintEntriesAt(entries, n);
    PrintEntriesAt(WithLineEnd(entries), n);
    forall k | 0 <= k < n ensures longer[k] == groups[k] {
      PrintEntriesAt(entries, k);
      PrintEntriesAt(WithLineEnd(entries), k);
    }
    assert longer == OneMoreLine(groups, "");
    UnsplitOneMoreLine(groups, "");
  }

  /** A blank line is a valid line and changes no record. */
  lemma LineEndSaysNothing(names: Names, e: Entry, s: SMap)
    requires ValidEntry(e) && Describes(names, e.items, s)
    ensures var e' := e.(items := e.items + [OtherItem("")]); ValidEntry(e') && Describes(names, e'.items, s)
  {
    if ReadMapping("").Some? { HeaderHasDash(""); }
    var items := e.items + [OtherItem("")];
    forall key | key in names.sizes ensures s.sizes[key] == 0 || MentionsSize(items, key) {
      if MentionsSize(e.items, key) {
        var k :| 0 <= k < |e.items| && e.items[k].SizeItem? && e.items[k].key == key;
        assert items[k] == e.items[k];
      }
    }
    if MentionsFlags(e.items) {
      var k :| 0 <= k < |e.items| && e.items[k].FlagsItem?;
      assert items[k] == e.items[k];
    }
  }

  /** Any entries, printed with their body lines in any order and any white space, and with or
      without a line end after the last line, read back as the records they describe. */
  lemma RoundTrip(names: Names, entries: seq<Entry>, smaps: seq<SMap>)
    requires "" !in names.flags && entries != [] && forall k | 0 <= k < |entries| :: ValidEntry(entries[k])
    requires DescribesEach(names, entries, smaps)
    ensures ReadSmaps(names, PrintSmaps(entries)) == Some(smaps)
    ensures ReadSmaps(names, PrintSmaps(entries) + "\n") == Some(smaps)
  {
    ReadPrinted(names, entries, smaps);
    var longer := WithLineEnd(entries);
    forall k | 0 <= k < |entries|
      ensures ValidEntry(longer[k]) && longer[k].mapping == entries[k].mapping
      ensures Describes(names, longer[k].items, smaps[k])
    {
      if k == |entries| - 1 { LineEndSaysNothing(names, entries[k], smaps[k]); }
    }
    ReadPrinted(names, longer, smaps);
    LinesWithLineEnd(entries);
    JoinOneEmpty(Unsplit(PrintEntries(entries)), '\n');
  }

  lemma ReadPrinted(names: Names, entries: seq<Entry>, smaps: seq<SMap>)
    requires "" !in names.flags && entries != [] && forall k | 0 <= k < |entries| :: ValidEntry(entries[k])
    requires DescribesEach(names, entries, smaps)
    ensures ReadSmaps(names, PrintSmaps(entries)) == Some(smaps)
  {
    var groups := PrintEntries(entries);
    var lines := Unsplit(groups);
    PrintedGroups(names, entries);
    PrintedLines(names, entries);
    SplitOfJoin(lines, '\n');
    GroupsAreUnique(groups);
    EntriesByGroups(names, lines);
    PrintedEntries(names, entries, smaps);
    OneReading(names, groups, ReadEntries(names, lines).value, smaps);
  }

  /** In particular with the keys and flags the program knows. */
  lemma LinuxRoundTrip(entries: seq<Entry>, smaps: seq<SMap>)
    requires entries != [] && (forall k | 0 <= k < |entries| :: ValidEntry(entries[k]))
    requires DescribesEach(LINUX, entries, smaps)
    ensures ReadSmaps(LINUX, PrintSmaps(entries)) == Some(smaps)
    ensures ReadSmaps(LINUX, PrintSmaps(entries) + "\n") == Some(smaps)
  {
    assert "" !in LINUX.flags;
    RoundTrip(LINUX, entries, smaps);
  }
}
