/** Reading `/proc/<pid>/smaps`: cutting the text into entries and reading the lines of each. */
module Smaps {
  import opened MappingLines
  import opened Text
  import opened Wrappers

  /** The size keys and the flags that are stored; others are read and dropped. */
  datatype Names = Names(sizes: set<string>, flags: set<string>)

  datatype SMap = SMap(mapping: Mapping, sizes: map<string, nat>, flags: set<string>)

  const LINUX: Names := Names(
    {"AnonHugePages", "Anonymous", "FilePmdMapped", "KSM", "KernelPageSize", "LazyFree", "Locked", "MMUPageSize",
     "Private_Clean", "Private_Dirty", "Private_Hugetlb", "ProtectionKey", "Pss", "Pss_Dirty", "Referenced", "Rss",
     "Shared_Clean", "Shared_Dirty", "Shared_Hugetlb", "ShmemHugePages", "ShmemPmdMapped", "Size", "Swap", "SwapPss",
     "THPeligible"},
    {"rd", "wr", "ex", "sh", "mr", "mw", "me", "ms", "gd", "pf", "dw", "lo", "io", "sr", "rr", "dc", "de", "ac", "nr",
     "ht", "sf", "nl", "ar", "wf", "dd", "sd", "mm", "hg", "nh", "mg", "um", "uw"})

  // ---------- one body line ----------

  datatype BodyLine = Skipped | Malformed | Flags(flags: set<string>) | Size(key: string, amount: nat)

  function FlagsOf(known: set<string>, s: string): set<string> {
    set f | f in Split(s, ' ') && f in known
  }

  method ReadFlags(known: set<string>, s: string) returns (flags: set<string>)
    ensures flags == FlagsOf(known, s)
  {
    var words := Split(s, ' ');
    flags := {};
    var i := 0;
    while i < |words|
      invariant 0 <= i <= |words|
      invariant flags == set f | f in words[..i] && f in known
    {
      if words[i] in known {
        flags := flags + {words[i]};
      }
      assert words[..i + 1] == words[..i] + [words[i]];
      i := i + 1;
    }
    assert words[..i] == words;
  }

  predicate InKilobytes(value: string) {
    |value| >= 2 && value[|value| - 2..] == "kB"
  }

  /** A decimal number, in bytes or in units of 1024 of them; the product wraps at 64 bits. */
  function ReadAmount(value: string): Option<nat> {
    var digits := if InKilobytes(value) then Trim(value[..|value| - 2]) else value;
    if digits == [] || !('0' <= digits[|digits| - 1] <= '9') then None
    else match ParseUnsigned(digits, 10)
      case None => None
      case Some(n) => Some(n * (if InKilobytes(value) then 1024 else 1) % U64_LIMIT)
  }

  /** Lines without exactly one colon are skipped; an unreadable amount is an error even under
      a key that is not stored. */
  function ReadBodyLine(names: Names, line: string): BodyLine {
    var parts := Split(line, ':');
    if |parts| != 2 then Skipped
    else if parts[0] == "VmFlags" then Flags(FlagsOf(names.flags, parts[1]))
    else match ReadAmount(Trim(parts[1]))
      case None => Malformed
      case Some(n) => Size(parts[0], n)
  }

  /** One colon, with something or nothing on either side. */
  predicate OneColon(line: string) {
    exists i | 0 <= i < |line| :: line[i] == ':' && ':' !in line[..i] && ':' !in line[i + 1..]
  }

  lemma {:induction false} TwoParts(key: string, value: string)
    requires ':' !in key && ':' !in value
    ensures Split(key + ([':'] + value), ':') == [key, value]
  {
    SplitFirst(key, value, ':');
    SplitPlain(value, ':');
  }

  lemma {:induction false} OneColonIs(line: string)
    ensures OneColon(line) <==> |Split(line, ':')| == 2
  {
    if OneColon(line) {
      var i :| 0 <= i < |line| && line[i] == ':' && ':' !in line[..i] && ':' !in line[i + 1..];
      TwoParts(line[..i], line[i + 1..]);
      assert line == line[..i] + ([':'] + line[i + 1..]);
    }
    if |Split(line, ':')| == 2 {
      JoinOfSplit(line, ':');
      var parts := Split(line, ':');
      assert line == parts[0] + ([':'] + parts[1]);
      assert line[..|parts[0]|] == parts[0] && line[|parts[0]| + 1..] == parts[1];
    }
  }

  /** By the text alone: a line without a colon, such as a blank one, says nothing, and neither
      does a line with more than one. */
  lemma OtherLinesSkipped(names: Names, line: string)
    requires !OneColon(line)
    ensures ReadBodyLine(names, line) == Skipped
  {
    OneColonIs(line);
  }

  /** A line with one colon is the flags or an amount; `before` and `after` are the white space
      around the amount. */
  lemma {:induction false} ColonLineMeans(names: Names, key: string, before: string, amount: string, after: string)
    requires ':' !in key && ':' !in before + amount + after && AllTrimmed(before) && AllTrimmed(after)
    requires amount != [] ==> !IsTrimmed(amount[0]) && !IsTrimmed(amount[|amount| - 1])
    ensures ReadBodyLine(names, key + ([':'] + (before + amount + after))) ==
              if key == "VmFlags" then
                Flags(set f | f in names.flags && f in Split(before + amount + after, ' '))
              else if ReadAmount(amount) == None then Malformed
              else Size(key, ReadAmount(amount).value)
  {
    TwoParts(key, before + amount + after);
    if amount == [] {
      TrimAll(before, after);
    } else {
      TrimPadding(before, amount, after);
    }
    assert FlagsOf(names.flags, before + amount + after)
        == set f | f in names.flags && f in Split(before + amount + after, ' ');
  }

  /** An amount is a number, or a number before the unit and some white space; the unit makes it
      1024 times as large, modulo 2^64. */
  lemma {:induction false} AmountMeans(number: string, gap: string)
    requires AllTrimmed(gap) && (number != [] ==> !IsTrimmed(number[0]) && !IsTrimmed(number[|number| - 1]))
    ensures !(|number| >= 2 && number[|number| - 2] == 'k' && number[|number| - 1] == 'B') ==>
              ReadAmount(number) == ParseUnsigned(number, 10)
    ensures ReadAmount(number + gap + "kB") ==
              match ParseUnsigned(number, 10)
              case None => None
              case Some(n) => Some(n * 1024 % 18446744073709551616)
  {
    if ParseUnsigned(number, 10).Some? {
      LastDigit(number);
    }
    var value := number + gap + "kB";
    assert value[|value| - 2..] == "kB" && value[..|value| - 2] == [] + number + gap;
    if number == [] {
      TrimAll([], gap);
    } else {
      TrimPadding([], number, gap);
    }
    if |number| >= 2 {
      assert number[|number| - 2..] == [number[|number| - 2], number[|number| - 1]];
      assert "kB" == ['k', 'B'];
    }
  }

  lemma {:induction false} LastDigit(s: string)
    requires ParseUnsigned(s, 10).Some?
    ensures s != [] && '0' <= s[|s| - 1] <= '9'
  {
    NumberExactly(s, 10);
    var digits :| digits != [] && AllDigits(digits, 10) && (s == digits || s == "+" + digits);
    assert DigitValue(digits[|digits| - 1]) < 10;
  }

  // ---------- one entry ----------

  function Blank(names: Names, mapping: Mapping): SMap {
    SMap(mapping, map key | key in names.sizes :: 0, {})
  }

  function Update(names: Names, s: SMap, b: BodyLine): SMap {
    match b
    case Flags(flags) => s.(flags := flags)
    case Size(key, amount) => if key in names.sizes then s.(sizes := s.sizes[key := amount]) else s
    case _ => s
  }

  function ReadBody(names: Names, s: SMap, lines: seq<string>): Option<SMap>
    decreases |lines|
  {
    if lines == [] then Some(s)
    else
      var b := ReadBodyLine(names, lines[0]);
      if b.Malformed? then None else ReadBody(names, Update(names, s, b), lines[1..])
  }

  method ReadValue(text: string) returns (amount: Option<nat>)
    ensures amount == ReadAmount(text)
  {
    var value, multiplier := text, 1;
    if InKilobytes(value) {
      multiplier := multiplier * 1024;
      value := Trim(value[..|value| - 2]);
    }
    if value == [] || !('0' <= value[|value| - 1] <= '9') {
      return None;
    }
    var n := ParseUnsigned(value, 10);
    if n.None? {
      return None;
    }
    return Some(n.value * multiplier % U64_LIMIT);
  }

  method FromLines(names: Names, mapping: Mapping, lines: seq<string>) returns (r: Option<SMap>)
    ensures r == ReadBody(names, Blank(names, mapping), lines)
  {
    var res := Blank(names, mapping);
    var i := 0;
    while i < |lines|
      invariant 0 <= i <= |lines|
      invariant ReadBody(names, Blank(names, mapping), lines) == ReadBody(names, res, lines[i..])
    {
      var line := lines[i];
      assert lines[i..][0] == line && lines[i..][1..] == lines[i + 1..];
      i := i + 1;
      var parts := Split(line, ':');
      if |parts| != 2 {
        continue;
      }
      var key, value := parts[0], Trim(parts[1]);
      if key == "VmFlags" {
        AfterKey(line);
        var flags := ReadFlags(names.flags, line[|"VmFlags:"|..]);
        res := res.(flags := flags);
      } else {
        var amount := ReadValue(value);
        if amount.None? {
          return None;
        }
        if key in names.sizes {
          res := res.(sizes := res.sizes[key := amount.value]);
        }
      }
    }
    return Some(res);
  }

  lemma {:induction false} AfterKey(line: string)
    requires |Split(line, ':')| == 2
    ensures var parts := Split(line, ':'); |parts[0]| < |line| && line[|parts[0]| + 1..] == parts[1]
  {
    JoinOfSplit(line, ':');
    var parts := Split(line, ':');
    assert Join(parts, ':') == parts[0] + ([':'] + parts[1]);
  }

  /** The amount on the last line with a key. */
  function LastSize(names: Names, lines: seq<string>, key: string): Option<nat> {
    if lines == [] then None
    else
      var later := LastSize(names, lines[1..], key);
      var b := ReadBodyLine(names, lines[0]);
      if later.None? && b.Size? && b.key == key then Some(b.amount) else later
  }

  function LastFlags(names: Names, lines: seq<string>): Option<set<string>> {
    if lines == [] then None
    else
      var later := LastFlags(names, lines[1..]);
      var b := ReadBodyLine(names, lines[0]);
      if later.None? && b.Flags? then Some(b.flags) else later
  }

  function Or<T>(o: Option<T>, default: T): T {
    if o.Some? then o.value else default
  }

  predicate WellFormed(names: Names, lines: seq<string>) {
    forall k | 0 <= k < |lines| :: !ReadBodyLine(names, lines[k]).Malformed?
  }

  /** For any lines: reading fails exactly when one of them is malformed; otherwise each stored
      key holds the amount of its last line, and the flags are those of the last flags line. */
  lemma {:induction false} LastLineWins(names: Names, s: SMap, lines: seq<string>)
    requires s.sizes.Keys == names.sizes
    ensures var r := ReadBody(names, s, lines);
            && (r.Some? <==> WellFormed(names, lines))
            && (r.Some? ==>
                  && r.value.mapping == s.mapping && r.value.sizes.Keys == names.sizes
                  && r.value.flags == Or(LastFlags(names, lines), s.flags)
                  && forall key | key in names.sizes ::
                     r.value.sizes[key] == Or(LastSize(names, lines, key), s.sizes[key]))
    decreases |lines|
  {
    if lines != [] {
      var b := ReadBodyLine(names, lines[0]);
      assert WellFormed(names, lines) <==> !b.Malformed? && WellFormed(names, lines[1..]);
      LastLineWins(names, Update(names, s, b), lines[1..]);
    }
  }

  // ---------- the entries ----------

  /** How many lines come before the next header. */
  function BodyLength(lines: seq<string>): (n: nat)
    ensures n <= |lines| && (forall k | 0 <= k < n :: ReadMapping(lines[k]).None?)
    ensures n < |lines| ==> ReadMapping(lines[n]).Some?
  {
    if lines == [] || ReadMapping(lines[0]).Some? then 0 else 1 + BodyLength(lines[1..])
  }

  function Append(done: seq<SMap>, rest: Option<seq<SMap>>): Option<seq<SMap>> {
    if rest.None? then None else Some(done + rest.value)
  }

  function ReadEntries(names: Names, lines: seq<string>): Option<seq<SMap>>
    decreases |lines|
  {
    if lines == [] then Some([])
    else match ReadMapping(lines[0])
      case None => None
      case Some(mapping) =>
        var n := BodyLength(lines[1..]);
        match ReadBody(names, Blank(names, mapping), lines[1..1 + n])
        case None => None
        case Some(s) => Append([s], ReadEntries(names, lines[1 + n..]))
  }

  function ReadSmaps(names: Names, raw: string): Option<seq<SMap>> {
    ReadEntries(names, Split(raw, '\n'))
  }

  /** What reading all the lines comes to, once `done` has been read from the first `i`. */
  predicate ReadSoFar(names: Names, lines: seq<string>, i: nat, done: seq<SMap>)
    requires i <= |lines|
  {
    ReadEntries(names, lines) == Append(done, ReadEntries(names, lines[i..]))
  }

  /** The lines from `start` up to the next header. */
  method TakeBody(lines: seq<string>, start: nat) returns (smapLines: seq<string>, i: nat)
    requires start <= |lines|
    ensures start <= i <= |lines| && smapLines == lines[start..i] && HasNoHeader(smapLines)
    ensures i < |lines| ==> ReadMapping(lines[i]).Some?
  {
    i := start;
    smapLines := [];
    while i < |lines| && ReadMapping(lines[i]).None?
      invariant start <= i <= |lines| && smapLines == lines[start..i] && HasNoHeader(smapLines)
    {
      smapLines := smapLines + [lines[i]];
      i := i + 1;
    }
  }

  method FromStr(names: Names, raw: string) returns (r: Option<seq<SMap>>)
    ensures r == ReadSmaps(names, raw)
  {
    var res: seq<SMap> := [];
    var lines := Split(raw, '\n');
    var i: nat := 0;
    BeginReading(names, lines);
    while i < |lines|
      invariant i <= |lines| && ReadSoFar(names, lines, i, res)
    {
      var map_ := ReadMapping(lines[i]);
      if map_.None? {
        return None;
      }
      var start := i;
      var smapLines: seq<string>;
      smapLines, i := TakeBody(lines, start + 1);
      ReadOneMore(names, lines, start, i, res);
      var smap := FromLines(names, map_.value, smapLines);
      if smap.None? {
        return None;
      }
      res := res + [smap.value];
    }
    EndReading(names, lines, res);
    return Some(res);
  }

  lemma BeginReading(names: Names, lines: seq<string>)
    ensures ReadSoFar(names, lines, 0, [])
  {
    AppendNothing(ReadEntries(names, lines));
    assert lines[0..] == lines;
  }

  lemma {:induction false} EndReading(names: Names, lines: seq<string>, res: seq<SMap>)
    requires ReadSoFar(names, lines, |lines|, res)
    ensures ReadEntries(names, lines) == Some(res)
  {
    assert res + [] == res;
  }

  lemma {:induction false} ReadOneMore(names: Names, lines: seq<string>, start: nat, i: nat, res: seq<SMap>)
    requires start < i <= |lines| && HasNoHeader(lines[start + 1..i]) && ReadSoFar(names, lines, start, res)
    requires ReadMapping(lines[start]).Some? && (i < |lines| ==> ReadMapping(lines[i]).Some?)
    ensures var s := ReadBody(names, Blank(names, ReadMapping(lines[start]).value), lines[start + 1..i]);
            if s.None? then ReadEntries(names, lines).None? else ReadSoFar(names, lines, i, res + [s.value])
  {
    NextGroup(lines, start, i);
    NextEntry(names, lines, start, i);
    var s := ReadBody(names, Blank(names, ReadMapping(lines[start]).value), lines[start + 1..i]);
    if s.Some? {
      AppendTwice(res, [s.value], ReadEntries(names, lines[i..]));
    }
  }

  lemma AppendNothing(rest: Option<seq<SMap>>)
    ensures Append([], rest) == rest
  {
    if rest.Some? {
      assert [] + rest.value == rest.value;
    }
  }

  lemma AppendTwice(a: seq<SMap>, b: seq<SMap>, rest: Option<seq<SMap>>)
    ensures Append(a, Append(b, rest)) == Append(a + b, rest)
  {
    if rest.Some? {
      assert a + (b + rest.value) == a + b + rest.value;
    }
  }

  lemma {:induction false} BodyLengthIs(lines: seq<string>, n: nat)
    requires n <= |lines| && (forall k | 0 <= k < n :: ReadMapping(lines[k]).None?)
    requires n < |lines| ==> ReadMapping(lines[n]).Some?
    ensures BodyLength(lines) == n
  {
    if n > 0 {
      BodyLengthIs(lines[1..], n - 1);
    }
  }

  lemma NextGroup(lines: seq<string>, start: nat, i: nat)
    requires start < i <= |lines| && HasNoHeader(lines[start + 1..i])
    requires i < |lines| ==> ReadMapping(lines[i]).Some?
    ensures BodyLength(lines[start + 1..]) == i - start - 1
  {
    var body := lines[start + 1..];
    assert forall k | 0 <= k < i - start - 1 :: body[k] == lines[start + 1..i][k];
    BodyLengthIs(body, i - start - 1);
  }

  lemma {:induction false} NextEntry(names: Names, lines: seq<string>, start: nat, i: nat)
    requires start < i <= |lines| && BodyLength(lines[start + 1..]) == i - start - 1
    requires ReadMapping(lines[start]).Some?
    ensures var s := ReadBody(names, Blank(names, ReadMapping(lines[start]).value), lines[start + 1..i]);
            ReadEntries(names, lines[start..]) == if s.None? then None
              else Append([s.value], ReadEntries(names, lines[i..]))
  {
    Window(lines, start, i);
  }

  lemma {:induction false} Window(lines: seq<string>, start: nat, i: nat)
    requires start < i <= |lines|
    ensures var rest, n := lines[start..], i - start - 1;
            && rest[0] == lines[start] && rest[1..] == lines[start + 1..]
            && rest[1..1 + n] == lines[start + 1..i] && rest[1 + n..] == lines[i..]
  {
  }

  // ---------- cutting into groups ----------

  datatype Group = Group(header: string, body: seq<string>)

  function Groups(lines: seq<string>): seq<Group>
    decreases |lines|
  {
    if lines == [] then []
    else
      var n := BodyLength(lines[1..]);
      [Group(lines[0], lines[1..1 + n])] + Groups(lines[1 + n..])
  }

  function Unsplit(groups: seq<Group>): seq<string> {
    if groups == [] then [] else [groups[0].header] + groups[0].body + Unsplit(groups[1..])
  }

  predicate HasNoHeader(lines: seq<string>) {
    forall k | 0 <= k < |lines| :: ReadMapping(lines[k]).None?
  }

  /** No body holds a header, and every group but the first must start with one. */
  predicate IsGrouping(groups: seq<Group>) {
    forall k | 0 <= k < |groups| :: HasNoHeader(groups[k].body) && (k > 0 ==> ReadMapping(groups[k].header).Some?)
  }

  lemma {:induction false} FirstGroup(lines: seq<string>)
    requires lines != []
    ensures var n := BodyLength(lines[1..]);
            && HasNoHeader(lines[1..1 + n]) && [lines[0]] + lines[1..1 + n] + lines[1 + n..] == lines
            && (lines[1 + n..] != [] ==> ReadMapping(lines[1 + n..][0]).Some?)
  {
    var n := BodyLength(lines[1..]);
    HeadAndParts(lines, n);
  }

  lemma {:induction false} HeadAndParts(lines: seq<string>, n: nat)
    requires n < |lines|
    ensures [lines[0]] + lines[1..1 + n] + lines[1 + n..] == lines
    ensures lines[1..1 + n] == lines[1..][..n] && lines[1 + n..] == lines[1..][n..]
  {
  }

  lemma {:induction false} GroupsCover(lines: seq<string>)
    ensures Unsplit(Groups(lines)) == lines && IsGrouping(Groups(lines))
    ensures lines != [] ==> Groups(lines) != [] && Groups(lines)[0].header == lines[0]
    decreases |lines|
  {
    if lines != [] {
      var n := BodyLength(lines[1..]);
      FirstGroup(lines);
      GroupsCover(lines[1 + n..]);
      OneMoreGroup(Group(lines[0], lines[1..1 + n]), Groups(lines[1 + n..]));
    }
  }

  lemma {:induction false} OneMoreGroup(g: Group, rest: seq<Group>)
    requires HasNoHeader(g.body) && IsGrouping(rest) && (rest != [] ==> ReadMapping(rest[0].header).Some?)
    ensures IsGrouping([g] + rest) && Unsplit([g] + rest) == [g.header] + g.body + Unsplit(rest)
  {
    assert ([g] + rest)[1..] == rest;
  }

  lemma {:induction false} CutFirst(header: string, body: seq<string>, rest: seq<string>)
    requires HasNoHeader(body) && (rest != [] ==> ReadMapping(rest[0]).Some?)
    ensures var lines := [header] + body + rest;
            BodyLength(lines[1..]) == |body| && lines[1..1 + |body|] == body && lines[1 + |body|..] == rest
  {
    var lines := [header] + body + rest;
    assert lines[1..] == body + rest;
    BodyLengthIs(lines[1..], |body|);
  }

  /** The cut is the only one with headers at the front of groups and nowhere else. */
  lemma {:induction false} GroupsAreUnique(groups: seq<Group>)
    requires IsGrouping(groups)
    ensures Groups(Unsplit(groups)) == groups
  {
    if groups != [] {
      var g, more := groups[0], groups[1..];
      assert HasNoHeader(g.body);
      assert more != [] ==> Unsplit(more)[0] == more[0].header && more[0] == groups[1];
      CutFirst(g.header, g.body, Unsplit(more));
      assert IsGrouping(more);
      GroupsAreUnique(more);
      assert [g] + more == groups;
    }
  }

  function ReadGroup(names: Names, g: Group): Option<SMap> {
    match ReadMapping(g.header)
    case None => None
    case Some(mapping) => ReadBody(names, Blank(names, mapping), g.body)
  }

  predicate IsEntry(names: Names, g: Group) {
    ReadMapping(g.header).Some? && WellFormed(names, g.body)
  }

  predicate AllEntries(names: Names, groups: seq<Group>) {
    forall k | 0 <= k < |groups| :: IsEntry(names, groups[k])
  }

  /** One entry for each group, in order. */
  predicate EntryForEach(names: Names, groups: seq<Group>, r: seq<SMap>) {
    && |r| == |groups|
    && (groups != [] ==> ReadGroup(names, groups[0]) == Some(r[0]) && EntryForEach(names, groups[1..], r[1..]))
  }

  lemma EntryOfGroup(names: Names, g: Group)
    ensures IsEntry(names, g) <==> ReadGroup(names, g).Some?
  {
    if ReadMapping(g.header).Some? {
      LastLineWins(names, Blank(names, ReadMapping(g.header).value), g.body);
    }
  }

  lemma {:induction false} AllOfOneMore(names: Names, g: Group, groups: seq<Group>)
    ensures AllEntries(names, [g] + groups) <==> IsEntry(names, g) && AllEntries(names, groups)
  {
    var all := [g] + groups;
    assert all[0] == g;
    assert forall k | 0 <= k < |groups| :: all[k + 1] == groups[k];
  }

  lemma {:induction false} EachOfOneMore(names: Names, g: Group, groups: seq<Group>, s: SMap, r: seq<SMap>)
    requires ReadGroup(names, g) == Some(s) && EntryForEach(names, groups, r)
    ensures EntryForEach(names, [g] + groups, [s] + r)
  {
    assert ([g] + groups)[1..] == groups && ([s] + r)[1..] == r;
  }

  lemma {:induction false} EntriesByGroups(names: Names, lines: seq<string>)
    ensures ReadEntries(names, lines).Some? <==> AllEntries(names, Groups(lines))
    ensures ReadEntries(names, lines).Some? ==> EntryForEach(names, Groups(lines), ReadEntries(names, lines).value)
    decreases |lines|
  {
    if lines != [] {
      var n := BodyLength(lines[1..]);
      var g := Group(lines[0], lines[1..1 + n]);
      EntriesByGroups(names, lines[1 + n..]);
      EntryOfGroup(names, g);
      AllOfOneMore(names, g, Groups(lines[1 + n..]));
      if ReadEntries(names, lines).Some? {
        EachOfOneMore(names, g, Groups(lines[1 + n..]), ReadGroup(names, g).value,
                      ReadEntries(names, lines[1 + n..]).value);
      }
    }
  }

  /** For any text: its lines are cut at the headers into groups that make up exactly the lines;
      it is read exactly when each group has a header and no malformed line, one entry a group. */
  lemma {:induction false} ReadByGroups(names: Names, raw: string)
    ensures var lines := Split(raw, '\n');
            var groups := Groups(lines);
            var r := ReadSmaps(names, raw);
            && Unsplit(groups) == lines && Join(lines, '\n') == raw && IsGrouping(groups)
            && (r.Some? <==> AllEntries(names, groups))
            && (r.Some? ==> EntryForEach(names, groups, r.value))
  {
    var lines := Split(raw, '\n');
    JoinOfSplit(raw, '\n');
    GroupsCover(lines);
    EntriesByGroups(names, lines);
  }
}
