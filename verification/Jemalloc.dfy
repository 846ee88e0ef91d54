/** Reading jemalloc's `heap_v2` text: a loop over lines with one pending stack, and what it
    accepts and returns for any text. */
module JemallocProfiles {
  import opened Estimator
  import opened Text
  import opened Wrappers

  datatype Error = EmptyDump | UnsupportedHeader | BadNumber | StackWithoutCounters

  datatype Counters = Counters(liveObjects: nat, liveBytes: nat, allocObjects: nat, allocBytes: nat)

  datatype Sample = Sample(addresses: seq<nat>, values: HeapSampleValues)

  datatype HeapProfile = HeapProfile(stacks: seq<Sample>, samplingRate: int)

  // ---------- scaling ----------

  /** A rate of zero makes the ratio infinite and the factor one. */
  function ScaleJemalloc(exp: real -> real, objects: nat, bytes: nat, rate: nat): (int, int)
    requires IsExp(exp)
  {
    if objects == 0 || bytes == 0 then (0, 0)
    else if rate == 0 then (SaturatingI64(objects), SaturatingI64(bytes))
    else
      DistancesTimes(objects, bytes, rate);
      HitBounds(exp, Distances(objects, bytes, rate));
      var p := Probability(exp, objects, bytes, rate);
      (ToI64(Scaled(objects, p)), ToI64(Scaled(bytes, p)))
  }

  /** The values of jemalloc's totals are estimates at every rate but zero, where they are the
      totals themselves. */
  lemma ScaleJemallocIs(exp: real -> real, objects: nat, bytes: nat, rate: nat)
    requires IsExp(exp)
    ensures var (o, b) := ScaleJemalloc(exp, objects, bytes, rate);
            if objects == 0 || bytes == 0 then o == 0 && b == 0
            else if rate == 0 then
              && o == (if objects <= 9223372036854775807 then objects else 9223372036854775807)
              && b == (if bytes <= 9223372036854775807 then bytes else 9223372036854775807)
            else IsEstimate(exp, o, objects, objects, bytes, rate) && IsEstimate(exp, b, bytes, objects, bytes, rate)
  {
    if objects > 0 && bytes > 0 && rate > 0 {
      ScaledIsEstimate(exp, objects, objects, bytes, rate);
      ScaledIsEstimate(exp, bytes, objects, bytes, rate);
    }
  }

  lemma ScalersAgree(exp: real -> real, count: nat, size: nat, rate: nat)
    requires IsExp(exp) && rate != 1
    ensures ScaleJemalloc(exp, count, size, rate) == ScaleHeapSample(exp, count, size, rate)
  {
    if count > 0 && size > 0 && rate > 1 {
      ScalingBranch(exp, count, size, rate);
    }
  }

  /** At a rate of one byte the native scaler returns the raw totals and this one does not. */
  lemma ScalersDifferAtOne(exp: real -> real)
    requires IsExp(exp)
    ensures ScaleHeapSample(exp, 4, 4, 1) == (4, 4) && ScaleJemalloc(exp, 4, 4, 1).1 >= 5
  {
    var x := Distances(4, 4, 1);
    assert x == 1.0;
    assert AddLaw(exp, -0.5, -0.5) && TangentLaw(exp, -0.5);
    var h := exp(-0.5);
    assert -0.5 + -0.5 == -x && exp(-x) == h * h;
    ProductsOrdered(0.5, h, 0.5, h);
    HitBounds(exp, x);
    var p := Hit(exp, x);
    assert p <= 0.75;
    var u := Scaled(4, p);
    Cancel(5.0, u, p);
    CastMonotone(5.0, u);
  }

  /** The two scalers of the program agree on all totals at every rate but one byte. */
  lemma ScalersAgreeExactly(exp: real -> real, rate: nat)
    requires IsExp(exp)
    ensures (forall count, size ::
             ScaleJemalloc(exp, count, size, rate) == ScaleHeapSample(exp, count, size, rate)) <==>
            rate != 1
  {
    if rate == 1 {
      ScalersDifferAtOne(exp);
    } else {
      forall count, size ensures ScaleJemalloc(exp, count, size, rate) == ScaleHeapSample(exp, count, size, rate) {
        ScalersAgree(exp, count, size, rate);
      }
    }
  }

  /** A scaled pair is zero only when a raw counter is. */
  lemma {:induction false} ScaledToZero(exp: real -> real, objects: nat, bytes: nat, rate: nat)
    requires IsExp(exp)
    ensures ScaleJemalloc(exp, objects, bytes, rate) == (0, 0) <==> objects == 0 || bytes == 0
    ensures objects > 0 && bytes > 0 ==>
              ScaleJemalloc(exp, objects, bytes, rate).0 > 0 && ScaleJemalloc(exp, objects, bytes, rate).1 > 0
  {
    if objects > 0 && bytes > 0 && rate > 0 {
      DistancesTimes(objects, bytes, rate);
      HitBounds(exp, Distances(objects, bytes, rate));
      CastOfScaled(objects, Probability(exp, objects, bytes, rate));
      CastOfScaled(bytes, Probability(exp, objects, bytes, rate));
    }
  }

  // ---------- one line ----------

  /** What a line is to the reader; `None` marks a number that does not parse. */
  datatype Item =
    | Noise
    | Stack(addresses: Option<seq<nat>>)
    | Counts(counters: Option<Counters>)

  /** One less than the address, so that a return address falls inside its call. */
  function BeforeReturn(address: nat): nat {
    if address == 0 then 0 else address - 1
  }

  function ReadAddress(word: string): Option<nat> {
    match ParseUnsigned(TrimHexPrefix(word), 16)
    case None => None
    case Some(a) => Some(BeforeReturn(a))
  }

  function ReadAddresses(words: seq<string>): Option<seq<nat>> {
    if words == [] then Some([])
    else
      var rest := ReadAddresses(words[1..]);
      var first := ReadAddress(words[0]);
      if first.None? || rest.None? then None else Some([first.value] + rest.value)
  }

  function ReadCounters(words: seq<string>): Option<Counters>
    requires |words| > 2
  {
    var liveObjects := ParseNat(TrimEndMatches(words[1], ':'), 10);
    var liveBytes := ParseNat(words[2], 10);
    var third := if |words| > 3 && words[3] != [] && words[3][0] == '[' then words[3][1..] else "0";
    var allocObjects := ParseNat(TrimEndMatches(third, ':'), 10);
    var fourth := if |words| > 4 then TrimEndMatches(words[4], ']') else "0";
    var allocBytes := ParseNat(fourth, 10);
    if liveObjects.None? || liveBytes.None? || allocObjects.None? || allocBytes.None? then None
    else Some(Counters(liveObjects.value, liveBytes.value, allocObjects.value, allocBytes.value))
  }

  function ReadLine(line: string): Item {
    var words := Words(line);
    if words == [] then Noise
    else if words[0] == "@" then Stack(ReadAddresses(words[1..]))
    else if |words| > 2 && words[0] == "t*:" then Counts(ReadCounters(words))
    else Noise
  }

  function ReadLines(lines: seq<string>): (items: seq<Item>)
    ensures |items| == |lines| && forall k | 0 <= k < |lines| :: items[k] == ReadLine(lines[k])
  {
    seq(|lines|, k requires 0 <= k < |lines| => ReadLine(lines[k]))
  }

  function ReadHeader(line: string): Result<nat, Error> {
    var header := Trim(line);
    if !("heap_v2/" <= header) then Err(UnsupportedHeader)
    else match ParseUnsigned(header[|"heap_v2/"|..], 10)
      case None => Err(BadNumber)
      case Some(rate) => Ok(rate)
  }

  // ---------- the loop ----------

  /** The values of a stack, unless all of them are zero. */
  function Entry(exp: real -> real, rate: nat, addresses: seq<nat>, c: Counters): seq<Sample>
    requires IsExp(exp)
  {
    var (inuseObjects, inuseSpace) := ScaleJemalloc(exp, c.liveObjects, c.liveBytes, rate);
    var (allocObjects, allocSpace) := ScaleJemalloc(exp, c.allocObjects, c.allocBytes, rate);
    if inuseObjects == 0 && inuseSpace == 0 && allocObjects == 0 && allocSpace == 0 then []
    else [Sample(addresses, HeapSampleValues(allocObjects, allocSpace, inuseObjects, inuseSpace))]
  }

  function Prepend(done: seq<Sample>, rest: Result<seq<Sample>, Error>): Result<seq<Sample>, Error> {
    match rest
    case Err(e) => Err(e)
    case Ok(samples) => Ok(done + samples)
  }

  /** Reading the remaining items with a stack possibly pending. */
  function ReadItems(exp: real -> real, rate: nat, items: seq<Item>,
                     pending: Option<seq<nat>>): Result<seq<Sample>, Error>
    requires IsExp(exp)
    decreases |items|
  {
    if items == [] then
      if pending.Some? then Err(StackWithoutCounters) else Ok([])
    else match items[0]
      case Noise => ReadItems(exp, rate, items[1..], pending)
      case Stack(addresses) =>
        if pending.Some? then Err(StackWithoutCounters)
        else if addresses.None? then Err(BadNumber)
        else ReadItems(exp, rate, items[1..], addresses)
      case Counts(counters) =>
        if pending.None? then ReadItems(exp, rate, items[1..], None)
        else if counters.None? then Err(BadNumber)
        else Prepend(Entry(exp, rate, pending.value, counters.value), ReadItems(exp, rate, items[1..], None))
  }

  function ReadProfile(exp: real -> real, lines: seq<string>): Result<HeapProfile, Error>
    requires IsExp(exp)
  {
    if lines == [] then Err(EmptyDump)
    else match ReadHeader(lines[0])
      case Err(e) => Err(e)
      case Ok(rate) =>
        match ReadItems(exp, rate, ReadLines(lines[1..]), None)
        case Err(e) => Err(e)
        case Ok(stacks) => Ok(HeapProfile(stacks, SaturatingI64(rate)))
  }

  method ParseJemallocHeapProfile(exp: real -> real, lines: seq<string>) returns (r: Result<HeapProfile, Error>)
    requires IsExp(exp)
    ensures r == ReadProfile(exp, lines)
  {
    if |lines| == 0 {
      return Err(EmptyDump);
    }
    var header := ReadHeader(lines[0]);
    if header.Err? {
      return Err(header.error);
    }
    var samplingRate := header.value;
    var currentStack: Option<seq<nat>> := None;
    var stacks: seq<Sample> := [];
    ghost var items := ReadLines(lines[1..]);
    var i := 1;
    PrependNothing(ReadItems(exp, samplingRate, items, None));
    assert items[0..] == items;
    while i < |lines|
      invariant 1 <= i <= |lines|
      invariant ReadItems(exp, samplingRate, items, None)
             == Prepend(stacks, ReadItems(exp, samplingRate, items[i - 1..], currentStack))
    {
      var words := Words(lines[i]);
      assert items[i - 1] == ReadLine(lines[i]) && items[i - 1..][1..] == items[i..];
      i := i + 1;
      if |words| == 0 {
        continue;
      }
      if words[0] == "@" {
        if currentStack.Some? {
          return Err(StackWithoutCounters);
        }
        currentStack := ReadAddresses(words[1..]);
        if currentStack.None? {
          return Err(BadNumber);
        }
      } else if |words| > 2 && words[0] == "t*:" {
        if currentStack.None? {
          continue;
        }
        var addresses := currentStack.value;
        currentStack := None;
        var counters := ReadCounters(words);
        if counters.None? {
          return Err(BadNumber);
        }
        var entry := Entry(exp, samplingRate, addresses, counters.value);
        PrependTwice(stacks, entry, ReadItems(exp, samplingRate, items[i - 1..], None));
        stacks := stacks + entry;
      }
    }
    if currentStack.Some? {
      return Err(StackWithoutCounters);
    }
    assert stacks + [] == stacks;
    return Ok(HeapProfile(stacks, SaturatingI64(samplingRate)));
  }

  lemma PrependTwice(a: seq<Sample>, b: seq<Sample>, rest: Result<seq<Sample>, Error>)
    ensures Prepend(a, Prepend(b, rest)) == Prepend(a + b, rest)
  {
    if rest.Ok? {
      assert a + (b + rest.value) == a + b + rest.value;
    }
  }

  lemma PrependNothing(rest: Result<seq<Sample>, Error>)
    ensures Prepend([], rest) == rest
  {
    if rest.Ok? {
      assert [] + rest.value == rest.value;
    }
  }

  // ---------- what is accepted, and what it means ----------

  /** The first stack or counters line at or after `k`. */
  function NextMark(items: seq<Item>, k: nat): (j: nat)
    requires k <= |items|
    ensures k <= j <= |items| && (j < |items| ==> !items[j].Noise?)
    ensures forall m | k <= m < j :: items[m].Noise?
    decreases |items| - k
  {
    if k == |items| || !items[k].Noise? then k else NextMark(items, k + 1)
  }

  predicate HasCounters(items: seq<Item>, j: nat) {
    j < |items| && items[j].Counts? && items[j].counters.Some?
  }

  /** A stack line is readable and the next mark after it is a readable counters line. */
  predicate Completed(items: seq<Item>, k: nat)
    requires k < |items|
  {
    items[k].Stack? ==> items[k].addresses.Some? && HasCounters(items, NextMark(items, k + 1))
  }

  predicate AllCompleted(items: seq<Item>, from: nat) {
    forall k | from <= k < |items| :: Completed(items, k)
  }

  /** Each stack line with the counters line that follows it, in order. */
  function Declared(exp: real -> real, rate: nat, items: seq<Item>, k: nat): seq<Sample>
    requires IsExp(exp) && k <= |items| && AllCompleted(items, k)
    decreases |items| - k
  {
    if k == |items| then []
    else if items[k].Stack? then
      assert Completed(items, k);
      Entry(exp, rate, items[k].addresses.value, items[NextMark(items, k + 1)].counters.value)
        + Declared(exp, rate, items, k + 1)
    else Declared(exp, rate, items, k + 1)
  }

  lemma {:induction false} ReadFrom(exp: real -> real, rate: nat, items: seq<Item>, k: nat, pending: Option<seq<nat>>)
    requires IsExp(exp) && k <= |items|
    ensures var r := ReadItems(exp, rate, items[k..], pending);
            && (r.Ok? <==> AllCompleted(items, k) && (pending.Some? ==> HasCounters(items, NextMark(items, k))))
            && (r.Ok? ==> r.value == (if pending.None? then []
                                      else Entry(exp, rate, pending.value, items[NextMark(items, k)].counters.value))
                                     + Declared(exp, rate, items, k))
    decreases |items| - k
  {
    if k < |items| {
      var item := items[k];
      assert items[k..][0] == item && items[k..][1..] == items[k + 1..];
      assert AllCompleted(items, k) <==> Completed(items, k) && AllCompleted(items, k + 1);
      match item {
        case Noise =>
          ReadFrom(exp, rate, items, k + 1, pending);
        case Stack(addresses) =>
          if pending.None? && addresses.Some? {
            ReadFrom(exp, rate, items, k + 1, addresses);
          }
        case Counts(counters) =>
          if pending.None? || counters.Some? {
            ReadFrom(exp, rate, items, k + 1, None);
          }
      }
    }
  }

  /** For any text: it is accepted exactly when its header is readable and every stack line is
      followed by its own counters line, and then the stacks are those declared, in order. */
  lemma AcceptedExactly(exp: real -> real, lines: seq<string>)
    requires IsExp(exp)
    ensures var r := ReadProfile(exp, lines);
            var items := if lines == [] then [] else ReadLines(lines[1..]);
            && (r.Ok? <==> lines != [] && ReadHeader(lines[0]).Ok? && AllCompleted(items, 0))
            && (r.Ok? ==> r.value.stacks == Declared(exp, ReadHeader(lines[0]).value, items, 0))
            && (lines == [] ==> r == Err(EmptyDump))
            && (lines != [] && ReadHeader(lines[0]).Err? ==> r == Err(ReadHeader(lines[0]).error))
  {
    if lines != [] && ReadHeader(lines[0]).Ok? {
      var items := ReadLines(lines[1..]);
      ReadFrom(exp, ReadHeader(lines[0]).value, items, 0, None);
      assert items[0..] == items;
    }
  }

  // ---------- printing ----------

  /** A line as its words and the white space before each of them and at the end. */
  datatype Line = Line(words: seq<string>, gaps: seq<string>, tail: string)

  predicate ValidLine(l: Line) {
    Laid(l.gaps, l.words, l.tail)
  }

  predicate ValidLines(lines: seq<Line>) {
    forall k | 0 <= k < |lines| :: ValidLine(lines[k])
  }

  function TextOf(l: Line): string
    requires ValidLine(l)
  {
    Spaced(l.gaps, l.words, l.tail)
  }

  function TextsOf(lines: seq<Line>): (texts: seq<string>)
    requires ValidLines(lines)
    ensures |texts| == |lines| && forall k | 0 <= k < |lines| :: texts[k] == TextOf(lines[k])
  {
    seq(|lines|, k requires 0 <= k < |lines| => TextOf(lines[k]))
  }

  predicate IsStackLine(l: Line) {
    l.words != [] && l.words[0] == "@"
  }

  predicate IsCountersLine(l: Line) {
    |l.words| > 2 && l.words[0] == "t*:"
  }

  /** No text is left out by this. */
  lemma EveryTextIsALine(text: string) returns (l: Line)
    ensures ValidLine(l) && TextOf(l) == text
  {
    var gaps, tail := WordsSpelled(text);
    l := Line(Words(text), gaps, tail);
  }

  /** What a line is, by its words. */
  lemma LineMeans(l: Line)
    requires ValidLine(l)
    ensures ReadLine(TextOf(l)).Stack? <==> IsStackLine(l)
    ensures ReadLine(TextOf(l)).Counts? <==> IsCountersLine(l)
  {
    WordsOfSpaced(l.gaps, l.words, l.tail);
  }

  lemma {:induction false} UnfinishedItem(items: seq<Item>, k: nat, j: nat)
    requires k < j <= |items| && items[k].Stack? && forall m | k < m < j :: !items[m].Counts?
    requires j < |items| ==> items[j].Stack?
    ensures !AllCompleted(items, 0)
  {
    var mark := NextMark(items, k + 1);
    assert mark < |items| ==> mark <= j;
    assert !Completed(items, k);
  }

  /** Two stack lines with no counters line between them are refused, as is a last stack line
      without one, wherever they stand and whatever the other lines are. */
  lemma {:induction false} UnfinishedStackRefused(exp: real -> real, header: string, lines: seq<Line>, k: nat, j: nat)
    requires IsExp(exp) && ValidLines(lines) && k < j <= |lines|
    requires IsStackLine(lines[k]) && forall m | k < m < j :: !IsCountersLine(lines[m])
    requires j < |lines| ==> IsStackLine(lines[j])
    ensures ReadProfile(exp, [header] + TextsOf(lines)).Err?
  {
    var texts := TextsOf(lines);
    var items := ReadLines(texts);
    assert ([header] + texts)[1..] == texts;
    AcceptedExactly(exp, [header] + texts);
    forall m | 0 <= m < |lines|
      ensures (items[m].Stack? <==> IsStackLine(lines[m])) && (items[m].Counts? <==> IsCountersLine(lines[m]))
    {
      LineMeans(lines[m]);
      assert items[m] == ReadLine(texts[m]);
    }
    UnfinishedItem(items, k, j);
  }

  /** A stack with its counters, and the lines of other kinds after each of the two. The counters
      show the first `shown` of the five words, and more words may follow the fifth. */
  datatype Block = Block(addresses: seq<nat>, stackLine: Line, between: seq<Line>,
                         counters: Counters, shown: nat, countersLine: Line, after: seq<Line>)

  /** Lines that are neither a stack nor counters, such as the per-thread and the blank ones, come
      between; counters with no stack of their own may follow too. */
  predicate ValidBlock(b: Block) {
    && (forall k | 0 <= k < |b.addresses| :: b.addresses[k] < 18446744073709551616)
    && ValidLine(b.stackLine) && b.stackLine.words == ["@"] + AddressWords(b.addresses)
    && ValidLine(b.countersLine) && 3 <= b.shown <= 5
    && |b.countersLine.words| >= b.shown && (b.shown < 5 ==> |b.countersLine.words| == b.shown)
    && b.countersLine.words[..b.shown] == CountersWords(b.counters)[..b.shown]
    && (b.shown < 4 ==> b.counters.allocObjects == 0) && (b.shown < 5 ==> b.counters.allocBytes == 0)
    && ValidLines(b.between) && ValidLines(b.after)
    && (forall k | 0 <= k < |b.between| :: !IsStackLine(b.between[k]) && !IsCountersLine(b.between[k]))
    && StartsNoStack(b.after)
  }

  predicate StartsNoStack(lines: seq<Line>) {
    forall k | 0 <= k < |lines| :: !IsStackLine(lines[k])
  }

  function AddressWord(address: nat): string {
    "0x" + Print(address, 16)
  }

  function AddressWords(addresses: seq<nat>): (words: seq<string>)
    ensures |words| == |addresses|
  {
    if addresses == [] then [] else [AddressWord(addresses[0])] + AddressWords(addresses[1..])
  }

  function CountersWords(c: Counters): (words: seq<string>)
    ensures |words| == 5
  {
    ["t*:", Print(c.liveObjects, 10) + ":", Print(c.liveBytes, 10),
     "[" + Print(c.allocObjects, 10) + ":", Print(c.allocBytes, 10) + "]"]
  }

  function PrintBlock(b: Block): seq<string>
    requires ValidBlock(b)
  {
    [TextOf(b.stackLine)] + TextsOf(b.between) + ([TextOf(b.countersLine)] + TextsOf(b.after))
  }

  function PrintBlocks(blocks: seq<Block>): seq<string>
    requires forall k | 0 <= k < |blocks| :: ValidBlock(blocks[k])
  {
    if blocks == [] then [] else PrintBlock(blocks[0]) + PrintBlocks(blocks[1..])
  }

  /** The stacks a profile should hold: addresses lowered by one, scaled values, and only the
      stacks with some object and some byte, live or accumulated. */
  function Meant(exp: real -> real, rate: nat, blocks: seq<Block>): seq<Sample>
    requires IsExp(exp)
  {
    if blocks == [] then []
    else
      var b := blocks[0];
      var c := b.counters;
      var (inuseObjects, inuseSpace) := ScaleJemalloc(exp, c.liveObjects, c.liveBytes, rate);
      var (allocObjects, allocSpace) := ScaleJemalloc(exp, c.allocObjects, c.allocBytes, rate);
      (if (c.liveObjects > 0 && c.liveBytes > 0) || (c.allocObjects > 0 && c.allocBytes > 0)
       then [Sample(Lowered(b.addresses), HeapSampleValues(allocObjects, allocSpace, inuseObjects, inuseSpace))]
       else [])
      + Meant(exp, rate, blocks[1..])
  }

  function Lowered(addresses: seq<nat>): seq<nat> {
    if addresses == [] then [] else [if addresses[0] == 0 then 0 else addresses[0] - 1] + Lowered(addresses[1..])
  }

  // ---------- reading what was printed ----------

  lemma {:induction false} NumberWord(n: nat, base: nat)
    requires 2 <= base <= 16
    ensures IsWord(Print(n, base))
    ensures TrimHexPrefix(Print(n, base)) == Print(n, base)
    ensures var s := Print(n, base); s[0] != '[' && s[|s| - 1] != ':' && s[|s| - 1] != ']'
  {
    PrintIsDigits(n, base);
    var p := Print(n, base);
    assert forall k | 0 <= k < |p| :: DigitValue(p[k]) < base;
  }

  /** A line with one space before every word but the first. */
  function PlainLine(words: seq<string>): Line {
    Line(words, seq(|words|, k => if k == 0 then "" else " "), "")
  }

  lemma {:induction false} AddressWordsAreWords(addresses: seq<nat>)
    ensures forall k | 0 <= k < |addresses| :: IsWord(AddressWords(addresses)[k])
  {
    if addresses != [] {
      NumberWord(addresses[0], 16);
      AddressWordsAreWords(addresses[1..]);
    }
  }

  lemma CountersWordsAreWords(c: Counters)
    ensures forall k | 0 <= k < 5 :: IsWord(CountersWords(c)[k])
  {
    NumberWord(c.liveObjects, 10);
    NumberWord(c.liveBytes, 10);
    NumberWord(c.allocObjects, 10);
    NumberWord(c.allocBytes, 10);
    var words := CountersWords(c);
    assert IsWord(words[0]) && IsWord(words[1]) && IsWord(words[2]) && IsWord(words[3]) && IsWord(words[4]);
  }

  /** Every stack with every counters has such a block. */
  lemma PlainBlock(addresses: seq<nat>, c: Counters) returns (b: Block)
    requires forall k | 0 <= k < |addresses| :: addresses[k] < 18446744073709551616
    ensures ValidBlock(b) && b.addresses == addresses && b.counters == c
  {
    AddressWordsAreWords(addresses);
    CountersWordsAreWords(c);
    b := Block(addresses, PlainLine(["@"] + AddressWords(addresses)), [], c, 5, PlainLine(CountersWords(c)), []);
    assert IsWord("@");
    assert ValidLine(b.stackLine) && ValidLine(b.countersLine);
  }

  /** An address is read whether it has a prefix, none or several, and lowered by one. */
  lemma {:induction false} AddressMeans(address: nat, prefixes: nat)
    requires address < 18446744073709551616
    ensures ReadAddress(Prefixed(Print(address, 16), prefixes)) == Some(if address == 0 then 0 else address - 1)
  {
    var digits := Print(address, 16);
    NumberWord(address, 16);
    ParseOfPrint(address, 16);
    TrimAllPrefixes(digits, prefixes);
  }

  lemma ReadAddressWord(address: nat)
    requires address < U64_LIMIT
    ensures ReadAddress(AddressWord(address)) == Some(if address == 0 then 0 else address - 1)
  {
    NumberWord(address, 16);
    ParseOfPrint(address, 16);
    assert AddressWord(address)[2..] == Print(address, 16);
  }

  lemma {:induction false} ReadAddressWords(addresses: seq<nat>)
    requires forall k | 0 <= k < |addresses| :: addresses[k] < U64_LIMIT
    ensures ReadAddresses(AddressWords(addresses)) == Some(Lowered(addresses))
  {
    if addresses != [] {
      ReadAddressWord(addresses[0]);
      ReadAddressWords(addresses[1..]);
      assert AddressWords(addresses)[1..] == AddressWords(addresses[1..]);
    }
  }

  /** A number before a colon or a closing bracket. */
  lemma {:induction false} ReadSuffixed(n: nat, c: char)
    requires c == ':' || c == ']'
    ensures ParseNat(TrimEndMatches(Print(n, 10) + [c], c), 10) == Some(n)
  {
    NumberWord(n, 10);
    TrimOneSuffix(Print(n, 10), c);
    ParseOfPrint(n, 10);
  }

  /** Counters that are not shown are zero. */
  lemma {:induction false} ReadCountersWords(c: Counters, words: seq<string>, shown: nat)
    requires 3 <= shown <= 5 && |words| >= shown && (shown < 5 ==> |words| == shown)
    requires words[..shown] == CountersWords(c)[..shown]
    requires (shown < 4 ==> c.allocObjects == 0) && (shown < 5 ==> c.allocBytes == 0)
    ensures ReadCounters(words) == Some(c) && words[0] == "t*:"
  {
    hide ParseNat, TrimEndMatches, Print;
    forall k | 0 <= k < shown ensures words[k] == CountersWords(c)[k] {
      assert words[k] == words[..shown][k] == CountersWords(c)[..shown][k];
    }
    ReadSuffixed(c.liveObjects, ':');
    ParseOfPrint(c.liveBytes, 10);
    ReadSuffixed(c.allocObjects, ':');
    ReadSuffixed(c.allocBytes, ']');
    ReadZero(':');
    ReadZero(']');
    var third := CountersWords(c)[3];
    assert third[0] == '[' && third[1..] == Print(c.allocObjects, 10) + ":";
  }

  lemma ReadZero(c: char)
    requires c == ':' || c == ']'
    ensures ParseNat(TrimEndMatches("0", c), 10) == Some(0) && ParseNat("0", 10) == Some(0)
  {
    ParseOfPrint(0, 10);
    assert Print(0, 10) == "0";
  }

  /** Accumulated objects that do not follow a bracket are not read. */
  lemma NoBracketNoObjects(words: seq<string>, c: Counters)
    requires |words| > 3 && words[3] != [] && words[3][0] != '[' && ReadCounters(words) == Some(c)
    ensures c.allocObjects == 0
  {
    ReadZero(':');
  }

  lemma {:induction false} ReadStackLine(addresses: seq<nat>, l: Line)
    requires (forall k | 0 <= k < |addresses| :: addresses[k] < U64_LIMIT)
    requires ValidLine(l) && l.words == ["@"] + AddressWords(addresses)
    ensures ReadLine(TextOf(l)) == Stack(Some(Lowered(addresses)))
  {
    ReadAddressWords(addresses);
    WordsOfSpaced(l.gaps, l.words, l.tail);
    assert l.words[1..] == AddressWords(addresses);
  }

  lemma ReadCountersLine(b: Block)
    requires ValidBlock(b)
    ensures ReadLine(TextOf(b.countersLine)) == Counts(Some(b.counters))
  {
    ReadCountersWords(b.counters, b.countersLine.words, b.shown);
    WordsOfSpaced(b.countersLine.gaps, b.countersLine.words, b.countersLine.tail);
  }

  lemma {:induction false} SkipIgnored(exp: real -> real, rate: nat, ignored: seq<Item>, rest: seq<Item>,
                                       pending: Option<seq<nat>>)
    requires IsExp(exp)
    requires forall k | 0 <= k < |ignored| :: ignored[k].Noise? || (pending.None? && ignored[k].Counts?)
    ensures ReadItems(exp, rate, ignored + rest, pending) == ReadItems(exp, rate, rest, pending)
  {
    if ignored == [] {
      assert ignored + rest == rest;
    } else {
      assert (ignored + rest)[1..] == ignored[1..] + rest;
      SkipIgnored(exp, rate, ignored[1..], rest, pending);
    }
  }

  lemma ReadLinesAppend(a: seq<string>, b: seq<string>)
    ensures ReadLines(a + b) == ReadLines(a) + ReadLines(b)
  {
  }

  lemma OtherLines(lines: seq<Line>)
    requires ValidLines(lines) && StartsNoStack(lines)
    ensures forall k | 0 <= k < |lines| :: !ReadLines(TextsOf(lines))[k].Stack?
    ensures forall k | 0 <= k < |lines| :: !IsCountersLine(lines[k]) ==> ReadLines(TextsOf(lines))[k].Noise?
  {
    forall k | 0 <= k < |lines|
      ensures var item := ReadLines(TextsOf(lines))[k]; !item.Stack? && (!IsCountersLine(lines[k]) ==> item.Noise?)
    {
      LineMeans(lines[k]);
    }
  }

  lemma BlockItems(b: Block)
    requires ValidBlock(b)
    ensures ReadLines(PrintBlock(b))
         == [Stack(Some(Lowered(b.addresses)))] + ReadLines(TextsOf(b.between))
           + ([Counts(Some(b.counters))] + ReadLines(TextsOf(b.after)))
  {
    var stackLine, countersLine := TextOf(b.stackLine), TextOf(b.countersLine);
    ReadStackLine(b.addresses, b.stackLine);
    ReadCountersLine(b);
    ReadLinesAppend([stackLine] + TextsOf(b.between), [countersLine] + TextsOf(b.after));
    ReadLinesAppend([stackLine], TextsOf(b.between));
    ReadLinesAppend([countersLine], TextsOf(b.after));
    assert ReadLines([stackLine]) == [Stack(Some(Lowered(b.addresses)))];
    assert ReadLines([countersLine]) == [Counts(Some(b.counters))];
  }

  lemma {:induction false} ReadBlockItems(exp: real -> real, rate: nat, addresses: seq<nat>, between: seq<Item>,
                                          c: Counters, rest: seq<Item>)
    requires IsExp(exp) && forall k | 0 <= k < |between| :: between[k].Noise?
    ensures ReadItems(exp, rate, [Stack(Some(addresses))] + (between + ([Counts(Some(c))] + rest)), None)
         == Prepend(Entry(exp, rate, addresses, c), ReadItems(exp, rate, rest, None))
  {
    var third := [Counts(Some(c))] + rest;
    assert third[1..] == rest;
    SkipIgnored(exp, rate, between, third, Some(addresses));
    assert ([Stack(Some(addresses))] + (between + third))[1..] == between + third;
  }

  lemma Regroup(a: seq<Item>, b: seq<Item>, c: seq<Item>, d: seq<Item>, e: seq<Item>)
    ensures a + b + (c + d) + e == a + (b + (c + (d + e)))
  {
  }

  lemma {:induction false} ReadBlock(exp: real -> real, rate: nat, b: Block, rest: seq<Item>)
    requires IsExp(exp) && ValidBlock(b)
    ensures ReadItems(exp, rate, ReadLines(PrintBlock(b)) + rest, None)
         == Prepend(Entry(exp, rate, Lowered(b.addresses), b.counters), ReadItems(exp, rate, rest, None))
  {
    BlockItems(b);
    var between, after := ReadLines(TextsOf(b.between)), ReadLines(TextsOf(b.after));
    OtherLines(b.between);
    OtherLines(b.after);
    ReadBlockItems(exp, rate, Lowered(b.addresses), between, b.counters, after + rest);
    SkipIgnored(exp, rate, after, rest, None);
    Regroup([Stack(Some(Lowered(b.addresses)))], between, [Counts(Some(b.counters))], after, rest);
  }

  lemma {:induction false} ReadBlocks(exp: real -> real, rate: nat, blocks: seq<Block>)
    requires IsExp(exp) && forall k | 0 <= k < |blocks| :: ValidBlock(blocks[k])
    ensures ReadItems(exp, rate, ReadLines(PrintBlocks(blocks)), None) == Ok(Meant(exp, rate, blocks))
  {
    if blocks != [] {
      var c := blocks[0].counters;
      ReadLinesAppend(PrintBlock(blocks[0]), PrintBlocks(blocks[1..]));
      ReadBlock(exp, rate, blocks[0], ReadLines(PrintBlocks(blocks[1..])));
      ReadBlocks(exp, rate, blocks[1..]);
      ScaledToZero(exp, c.liveObjects, c.liveBytes, rate);
      ScaledToZero(exp, c.allocObjects, c.allocBytes, rate);
    }
  }

  /** For any first line: the header is what is left of it without the white space around, and it
      is read exactly when it is the name of the format and a number that fits. */
  lemma {:induction false} HeaderExactly(before: string, header: string, after: string)
    requires AllTrimmed(before) && AllTrimmed(after)
    requires header != [] ==> !IsTrimmed(header[0]) && !IsTrimmed(header[|header| - 1])
    ensures var r := ReadHeader(before + header + after);
            && (r == Err(UnsupportedHeader) <==> !("heap_v2/" <= header))
            && ("heap_v2/" <= header ==> r == match ParseUnsigned(header[8..], 10)
                                              case None => Err(BadNumber)
                                              case Some(rate) => Ok(rate))
  {
    if header == [] {
      TrimAll(before, after);
    } else {
      TrimPadding(before, header, after);
    }
  }

  lemma {:induction false} ReadPrintedHeader(rate: nat, before: string, after: string)
    requires rate < U64_LIMIT && AllSpace(before) && AllSpace(after)
    ensures ReadHeader(before + ("heap_v2/" + Print(rate, 10)) + after) == Ok(rate)
  {
    var header := "heap_v2/" + Print(rate, 10);
    NumberWord(rate, 10);
    ParseOfPrint(rate, 10);
    assert header[|header| - 1] == Print(rate, 10)[|Print(rate, 10)| - 1];
    PrintIsDigits(rate, 10);
    assert DigitValue(header[|header| - 1]) < 10;
    TrimPadding(before, header, after);
    assert header[|"heap_v2/"|..] == Print(rate, 10);
  }

  lemma {:induction false} ReadBody(exp: real -> real, rate: nat, prelude: seq<Line>, blocks: seq<Block>)
    requires IsExp(exp) && ValidLines(prelude) && StartsNoStack(prelude)
    requires forall k | 0 <= k < |blocks| :: ValidBlock(blocks[k])
    ensures ReadItems(exp, rate, ReadLines(TextsOf(prelude) + PrintBlocks(blocks)), None)
            == Ok(Meant(exp, rate, blocks))
  {
    ReadLinesAppend(TextsOf(prelude), PrintBlocks(blocks));
    OtherLines(prelude);
    SkipIgnored(exp, rate, ReadLines(TextsOf(prelude)), ReadLines(PrintBlocks(blocks)), None);
    ReadBlocks(exp, rate, blocks);
  }

  /** Any document, in any layout, reads back as the stacks it was printed from. */
  lemma {:induction false} RoundTrip(exp: real -> real, rate: nat, before: string, after: string, prelude: seq<Line>,
                                     blocks: seq<Block>)
    requires IsExp(exp) && rate < 18446744073709551616 && AllSpace(before) && AllSpace(after)
    requires ValidLines(prelude) && StartsNoStack(prelude) && forall k | 0 <= k < |blocks| :: ValidBlock(blocks[k])
    ensures ReadProfile(exp,
                        [before + ("heap_v2/" + Print(rate, 10)) + after] + (TextsOf(prelude) + PrintBlocks(blocks)))
         == Ok(HeapProfile(Meant(exp, rate, blocks), if rate <= 9223372036854775807 then rate else 9223372036854775807))
  {
    ReadPrintedHeader(rate, before, after);
    ReadBody(exp, rate, prelude, blocks);
    var header := before + ("heap_v2/" + Print(rate, 10)) + after;
    assert ([header] + (TextsOf(prelude) + PrintBlocks(blocks)))[1..] == TextsOf(prelude) + PrintBlocks(blocks);
  }
}
