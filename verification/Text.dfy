/** Text scanning shared by the parsers, and printers for the numbers they read. */
module Text {
  import opened Bytes
  import opened Wrappers

  const U64_LIMIT := 0x1_0000_0000_0000_0000

  // ---------- numbers ----------

  function DigitValue(c: char): nat {
    if '0' <= c <= '9' then c as nat - '0' as nat
    else if 'a' <= c <= 'f' then c as nat - 'a' as nat + 10
    else if 'A' <= c <= 'F' then c as nat - 'A' as nat + 10
    else 16
  }

  lemma DigitValueOfHexDigit(d: nat)
    requires d < 16
    ensures DigitValue(HexDigit(d)) == d
  {
    assert "0123456789abcdef" == ['0', '1', '2', '3', '4', '5', '6', '7', '8', '9', 'a', 'b', 'c', 'd', 'e', 'f'];
  }

  /** The digits, in both cases. */
  lemma DigitsMean(d: nat)
    requires d < 16
    ensures DigitValue("0123456789abcdef"[d]) == d
    ensures DigitValue("0123456789ABCDEF"[d]) == d
  {
  }

  /** Every other character is past any base. */
  lemma OnlyDigits(c: char)
    requires DigitValue(c) < 16
    ensures c == "0123456789abcdef"[DigitValue(c)] || c == "0123456789ABCDEF"[DigitValue(c)]
  {
  }

  /** The value of a string of digits. */
  function Value(s: string, base: nat): Option<nat> {
    if s == [] then Some(0)
    else
      var high := Value(s[..|s| - 1], base);
      var d := DigitValue(s[|s| - 1]);
      if high.None? || d >= base then None else Some(high.value * base + d)
  }

  /** A number with an optional plus sign and at least one digit. */
  function ParseNat(s: string, base: nat): Option<nat> {
    var digits := if s != [] && s[0] == '+' then s[1..] else s;
    if digits == [] then None else Value(digits, base)
  }

  /** Rust's parsing of 64-bit unsigned integers. */
  function ParseUnsigned(s: string, base: nat): Option<nat> {
    match ParseNat(s, base)
    case None => None
    case Some(v) => if v < U64_LIMIT then Some(v) else None
  }

  /** A number without leading zeros. */
  function Print(n: nat, base: nat): (s: string)
    requires 2 <= base <= 16
    ensures s != []
  {
    if n < base then [HexDigit(n)] else Print(n / base, base) + [HexDigit(n % base)]
  }

  predicate AllDigits(s: string, base: nat) {
    forall k | 0 <= k < |s| :: DigitValue(s[k]) < base
  }

  lemma {:induction false} ValueOfAppend(s: string, d: nat, base: nat)
    requires d < base <= 16 && Value(s, base).Some?
    ensures Value(s + [HexDigit(d)], base) == Some(Value(s, base).value * base + d)
  {
    DigitValueOfHexDigit(d);
    var t := s + [HexDigit(d)];
    assert t[..|t| - 1] == s && t[|t| - 1] == HexDigit(d);
  }

  lemma Divided(n: nat, base: nat)
    requires base > 0
    ensures n / base * base + n % base == n
  {
  }

  lemma {:induction false} ValueOfPrint(n: nat, base: nat)
    requires 2 <= base <= 16
    ensures Value(Print(n, base), base) == Some(n)
  {
    if n < base {
      ValueOfAppend([], n, base);
      assert [] + [HexDigit(n)] == Print(n, base);
    } else {
      ValueOfPrint(n / base, base);
      ValueOfAppend(Print(n / base, base), n % base, base);
      Divided(n, base);
    }
  }

  lemma {:induction false} PrintIsDigits(n: nat, base: nat)
    requires 2 <= base <= 16
    ensures AllDigits(Print(n, base), base)
  {
    DigitValueOfHexDigit(n % base);
    if n >= base {
      PrintIsDigits(n / base, base);
    }
  }

  lemma {:induction false} ParseOfPrint(n: nat, base: nat)
    requires 2 <= base <= 16
    ensures ParseNat(Print(n, base), base) == Some(n)
    ensures n < U64_LIMIT ==> ParseUnsigned(Print(n, base), base) == Some(n)
  {
    ValueOfPrint(n, base);
    PrintIsDigits(n, base);
    assert DigitValue(Print(n, base)[0]) < base;
  }

  /** A text is a number exactly when it is digits, at least one, with a plus sign or without; the
      digits count in powers of the base. */
  lemma {:induction false} NumberExactly(s: string, base: nat)
    requires 0 < base <= 16
    ensures ParseNat(s, base).Some? <==>
              exists digits :: digits != [] && AllDigits(digits, base) && (s == digits || s == "+" + digits)
    ensures ParseUnsigned(s, base) ==
              (if ParseNat(s, base).Some? && ParseNat(s, base).value < 18446744073709551616 then ParseNat(s, base)
               else None)
  {
    var digits := if s != [] && s[0] == '+' then s[1..] else s;
    assert s != [] && s[0] == '+' ==> s == "+" + digits;
    ValueExactly(digits, base);
    if d: string :| d != [] && AllDigits(d, base) && (s == d || s == "+" + d) {
      assert d[0] != '+';
      assert digits == d;
    }
  }

  lemma {:induction false} ValueExactly(s: string, base: nat)
    ensures Value(s, base).Some? <==> AllDigits(s, base)
    ensures Value([], base) == Some(0)
    ensures s != [] && AllDigits(s, base) ==>
              Value(s, base).value == Value(s[..|s| - 1], base).value * base + DigitValue(s[|s| - 1])
  {
    if s != [] {
      ValueExactly(s[..|s| - 1], base);
      assert s == s[..|s| - 1] + [s[|s| - 1]];
    }
  }

  // ---------- white space and words ----------

  /** `char::is_ascii_whitespace`. */
  predicate IsSpace(c: char) {
    c == ' ' || c == '\t' || c == '\n' || c == '\r' || c as int == 12
  }

  predicate AllSpace(s: string) {
    forall k | 0 <= k < |s| :: IsSpace(s[k])
  }

  /** A non-empty run without white space. */
  predicate IsWord(s: string) {
    s != [] && forall k | 0 <= k < |s| :: !IsSpace(s[k])
  }

  /** The length of the longest prefix without white space. */
  function WordLength(s: string): (n: nat)
    ensures n <= |s| && (forall k | 0 <= k < n :: !IsSpace(s[k])) && (n < |s| ==> IsSpace(s[n]))
  {
    if s == [] || IsSpace(s[0]) then 0 else 1 + WordLength(s[1..])
  }

  /** `split_ascii_whitespace`. */
  function Words(s: string): seq<string>
    decreases |s|
  {
    if s == [] then []
    else if IsSpace(s[0]) then Words(s[1..])
    else
      var n := WordLength(s);
      [s[..n]] + Words(s[n..])
  }

  lemma {:induction false} WordLengthIs(s: string, n: nat)
    requires n <= |s| && (forall k | 0 <= k < n :: !IsSpace(s[k])) && (n < |s| ==> IsSpace(s[n]))
    ensures WordLength(s) == n
  {
    if n > 0 {
      WordLengthIs(s[1..], n - 1);
    }
  }

  lemma {:induction false} WordsAfterSpace(gap: string, rest: string)
    requires AllSpace(gap)
    ensures Words(gap + rest) == Words(rest)
  {
    if gap == [] {
      assert gap + rest == rest;
    } else {
      assert (gap + rest)[1..] == gap[1..] + rest;
      WordsAfterSpace(gap[1..], rest);
    }
  }

  lemma {:induction false} WordsOfWord(w: string, rest: string)
    requires IsWord(w) && (rest == [] || IsSpace(rest[0]))
    ensures Words(w + rest) == [w] + Words(rest)
  {
    var s := w + rest;
    WordLengthIs(s, |w|);
    assert s[..|w|] == w && s[|w|..] == rest;
  }

  /** Words separated by the given gaps, with `tail` after the last one. */
  function Spaced(gaps: seq<string>, words: seq<string>, tail: string): string
    requires |gaps| == |words|
  {
    if words == [] then tail else gaps[0] + words[0] + Spaced(gaps[1..], words[1..], tail)
  }

  /** Words with white space between them, and possibly around them. */
  predicate Laid(gaps: seq<string>, words: seq<string>, tail: string) {
    && |gaps| == |words| && AllSpace(tail)
    && forall k | 0 <= k < |words| :: IsWord(words[k]) && AllSpace(gaps[k]) && (k > 0 ==> gaps[k] != [])
  }

  /** Splitting recovers the words, whatever white space lies between them. */
  lemma {:induction false} WordsOfSpaced(gaps: seq<string>, words: seq<string>, tail: string)
    requires Laid(gaps, words, tail)
    ensures Words(Spaced(gaps, words, tail)) == words
  {
    if words == [] {
      WordsAfterSpace(tail, []);
      assert tail + [] == tail;
    } else {
      var rest := Spaced(gaps[1..], words[1..], tail);
      if |words| > 1 {
        assert gaps[1] != [] && IsSpace(gaps[1][0]);
        assert rest == gaps[1] + (words[1] + Spaced(gaps[1..][1..], words[1..][1..], tail));
      }
      assert rest == [] || IsSpace(rest[0]);
      WordsOfSpaced(gaps[1..], words[1..], tail);
      WordsOfWord(words[0], rest);
      WordsAfterSpace(gaps[0], words[0] + rest);
      assert Spaced(gaps, words, tail) == gaps[0] + (words[0] + rest);
    }
  }

  /** One more word in front, with its own gap. */
  lemma LaidAfter(gap: string, word: string, gaps: seq<string>, words: seq<string>, tail: string)
    requires Laid(gaps, words, tail) && AllSpace(gap) && IsWord(word) && (gaps != [] ==> gaps[0] != [])
    ensures Laid([gap] + gaps, [word] + words, tail)
    ensures Spaced([gap] + gaps, [word] + words, tail) == gap + word + Spaced(gaps, words, tail)
  {
    assert ([gap] + gaps)[1..] == gaps && ([word] + words)[1..] == words;
  }

  /** More white space before everything. */
  lemma LaidWider(c: char, gaps: seq<string>, words: seq<string>, tail: string)
    returns (gaps': seq<string>, tail': string)
    requires IsSpace(c) && Laid(gaps, words, tail)
    ensures Laid(gaps', words, tail') && Spaced(gaps', words, tail') == [c] + Spaced(gaps, words, tail)
  {
    if gaps == [] {
      gaps', tail' := [], [c] + tail;
    } else {
      gaps', tail' := [[c] + gaps[0]] + gaps[1..], tail;
      var rest := Spaced(gaps[1..], words[1..], tail);
      assert gaps'[1..] == gaps[1..];
      assert [c] + gaps[0] + words[0] + rest == [c] + (gaps[0] + words[0] + rest);
    }
  }

  /** A text that starts with white space has some before its first word. */
  lemma GapBefore(gaps: seq<string>, words: seq<string>, tail: string)
    requires Laid(gaps, words, tail) && words != []
    requires Spaced(gaps, words, tail) == [] || IsSpace(Spaced(gaps, words, tail)[0])
    ensures gaps[0] != []
  {
    var s := Spaced(gaps, words, tail);
    assert s == gaps[0] + (words[0] + Spaced(gaps[1..], words[1..], tail));
    assert !IsSpace(words[0][0]);
  }

  /** Every text is words between white space, and these are its words. */
  lemma {:induction false} WordsSpelled(s: string) returns (gaps: seq<string>, tail: string)
    ensures Laid(gaps, Words(s), tail) && Spaced(gaps, Words(s), tail) == s
    decreases |s|
  {
    if s == [] {
      gaps, tail := [], [];
    } else if IsSpace(s[0]) {
      gaps, tail := WordsSpelled(s[1..]);
      gaps, tail := LaidWider(s[0], gaps, Words(s), tail);
    } else {
      var n := WordLength(s);
      gaps, tail := WordsSpelled(s[n..]);
      if gaps != [] {
        GapBefore(gaps, Words(s[n..]), tail);
      }
      LaidAfter([], s[..n], gaps, Words(s[n..]), tail);
      gaps := [[]] + gaps;
      assert s == [] + s[..n] + s[n..];
    }
  }

  /** The characters that separate words. */
  lemma SpaceIs(c: char)
    ensures IsSpace(c) <==> c in " \t\n\r" || c as int == 12
  {
    assert " \t\n\r" == [' ', '\t', '\n', '\r'];
  }

  // ---------- trimming ----------

  /** Characters with the Unicode property White_Space, which `trim` removes. */
  predicate IsTrimmed(c: char) {
    var n := c as int;
    || 9 <= n <= 13 || n == 0x20 || n == 0x85 || n == 0xA0 || n == 0x1680 || 0x2000 <= n <= 0x200A
    || n == 0x2028 || n == 0x2029 || n == 0x202F || n == 0x205F || n == 0x3000
  }

  lemma TrimmedIs(c: char)
    ensures IsTrimmed(c) <==>
              c as int in {9, 10, 11, 12, 13, 32, 133, 160, 5760, 8192, 8193, 8194, 8195, 8196, 8197, 8198, 8199, 8200,
                           8201, 8202, 8232, 8233, 8239, 8287, 12288}
  {
  }

  predicate AllTrimmed(s: string) {
    forall k | 0 <= k < |s| :: IsTrimmed(s[k])
  }

  function TrimStart(s: string): string {
    if s != [] && IsTrimmed(s[0]) then TrimStart(s[1..]) else s
  }

  function TrimEnd(s: string): string {
    if s != [] && IsTrimmed(s[|s| - 1]) then TrimEnd(s[..|s| - 1]) else s
  }

  function Trim(s: string): string {
    TrimEnd(TrimStart(s))
  }

  /** `trim_end_matches` for one character. */
  function TrimEndMatches(s: string, c: char): string {
    if s != [] && s[|s| - 1] == c then TrimEndMatches(s[..|s| - 1], c) else s
  }

  /** `trim_start_matches("0x")`. */
  function TrimHexPrefix(s: string): string {
    if |s| >= 2 && s[0] == '0' && s[1] == 'x' then TrimHexPrefix(s[2..]) else s
  }

  lemma {:induction false} TrimPadding(a: string, s: string, b: string)
    requires AllTrimmed(a) && AllTrimmed(b)
    requires s != [] && !IsTrimmed(s[0]) && !IsTrimmed(s[|s| - 1])
    ensures Trim(a + s + b) == s
  {
    TrimStartPadding(a, s + b);
    assert a + s + b == a + (s + b);
    TrimEndPadding(s, b);
  }

  /** Trimming takes off all the white space at both ends and nothing else. */
  lemma {:induction false} TrimExactly(s: string) returns (a: string, b: string)
    ensures s == a + Trim(s) + b
    ensures AllTrimmed(a) && AllTrimmed(b)
    ensures Trim(s) != [] ==> !IsTrimmed(Trim(s)[0]) && !IsTrimmed(Trim(s)[|Trim(s)| - 1])
  {
    a := TrimStartExactly(s);
    b := TrimEndExactly(TrimStart(s));
    assert s == a + (Trim(s) + b);
    if Trim(s) != [] {
      assert TrimStart(s)[0] == Trim(s)[0];
    }
  }

  lemma {:induction false} TrimStartExactly(s: string) returns (a: string)
    ensures s == a + TrimStart(s) && AllTrimmed(a)
    ensures TrimStart(s) != [] ==> !IsTrimmed(TrimStart(s)[0])
  {
    a := [];
    if s != [] && IsTrimmed(s[0]) {
      a := TrimStartExactly(s[1..]);
      a := [s[0]] + a;
    }
  }

  lemma {:induction false} TrimEndExactly(s: string) returns (b: string)
    ensures s == TrimEnd(s) + b && AllTrimmed(b)
    ensures TrimEnd(s) != [] ==> !IsTrimmed(TrimEnd(s)[|TrimEnd(s)| - 1])
  {
    b := [];
    if s != [] && IsTrimmed(s[|s| - 1]) {
      b := TrimEndExactly(s[..|s| - 1]);
      b := b + [s[|s| - 1]];
      assert s == s[..|s| - 1] + [s[|s| - 1]];
    }
  }

  lemma {:induction false} TrimStartPadding(a: string, rest: string)
    requires AllTrimmed(a) && (rest == [] || !IsTrimmed(rest[0]))
    ensures TrimStart(a + rest) == rest
  {
    if a == [] {
      assert a + rest == rest;
    } else {
      assert (a + rest)[1..] == a[1..] + rest;
      TrimStartPadding(a[1..], rest);
    }
  }

  lemma {:induction false} TrimAll(a: string, b: string)
    requires AllTrimmed(a) && AllTrimmed(b)
    ensures Trim(a + [] + b) == []
  {
    var s := a + [] + b;
    TrimStartPadding(s, []);
    assert s + [] == s;
  }

  lemma {:induction false} TrimEndPadding(s: string, b: string)
    requires AllTrimmed(b) && (s == [] || !IsTrimmed(s[|s| - 1]))
    ensures TrimEnd(s + b) == s
  {
    if b == [] {
      assert s + b == s;
    } else {
      var n := |s + b| - 1;
      assert (s + b)[..n] == s + b[..|b| - 1];
      TrimEndPadding(s, b[..|b| - 1]);
    }
  }

  lemma {:induction false} TrimOneSuffix(s: string, c: char)
    requires s == [] || s[|s| - 1] != c
    ensures TrimEndMatches(s + [c], c) == s && TrimEndMatches(s, c) == s
  {
    assert (s + [c])[..|s|] == s;
  }

  /** However many of the character follow. */
  lemma {:induction false} TrimAllSuffixes(s: string, c: char, k: nat)
    requires s == [] || s[|s| - 1] != c
    ensures TrimEndMatches(s + seq(k, _ => c), c) == s
  {
    var t := s + seq(k, _ => c);
    if k == 0 {
      assert t == s;
    } else {
      assert t[..|t| - 1] == s + seq(k - 1, _ => c);
      TrimAllSuffixes(s, c, k - 1);
    }
  }

  /** A text after so many hexadecimal prefixes. */
  function Prefixed(s: string, k: nat): string {
    if k == 0 then s else "0x" + Prefixed(s, k - 1)
  }

  lemma {:induction false} TrimAllPrefixes(s: string, k: nat)
    requires TrimHexPrefix(s) == s
    ensures TrimHexPrefix(Prefixed(s, k)) == s
  {
    if k > 0 {
      assert Prefixed(s, k)[2..] == Prefixed(s, k - 1);
      TrimAllPrefixes(s, k - 1);
    }
  }

  /** Trimming adds no character. */
  lemma TrimOnlyRemoves(s: string, c: char)
    requires c in Trim(s)
    ensures c in s
  {
    TrimEndOnlyRemoves(TrimStart(s), c);
    TrimStartOnlyRemoves(s, c);
  }

  lemma {:induction false} TrimStartOnlyRemoves(s: string, c: char)
    requires c in TrimStart(s)
    ensures c in s
  {
    if s != [] && IsTrimmed(s[0]) {
      TrimStartOnlyRemoves(s[1..], c);
    }
  }

  lemma {:induction false} TrimEndOnlyRemoves(s: string, c: char)
    requires c in TrimEnd(s)
    ensures c in s
  {
    if s != [] && IsTrimmed(s[|s| - 1]) {
      TrimEndOnlyRemoves(s[..|s| - 1], c);
    }
  }

  // ---------- splitting at a character ----------

  /** `split`: the pieces between the occurrences of a character, empty ones included. */
  function Split(s: string, c: char): (parts: seq<string>)
    ensures parts != []
  {
    if s == [] then [[]]
    else
      var rest := Split(s[1..], c);
      if s[0] == c then [[]] + rest else [[s[0]] + rest[0]] + rest[1..]
  }

  function Join(parts: seq<string>, c: char): string
    requires parts != []
  {
    if |parts| == 1 then parts[0] else parts[0] + ([c] + Join(parts[1..], c))
  }

  lemma {:induction false} SplitPlain(s: string, c: char)
    requires c !in s
    ensures Split(s, c) == [s]
  {
    if s != [] {
      SplitPlain(s[1..], c);
      assert [s[0]] + s[1..] == s;
    }
  }

  lemma {:induction false} SplitFirst(s: string, rest: string, c: char)
    requires c !in s
    ensures Split(s + ([c] + rest), c) == [s] + Split(rest, c)
  {
    var t := s + ([c] + rest);
    if s == [] {
      assert t[0] == c && t[1..] == rest;
    } else {
      assert t[0] == s[0] && t[1..] == s[1..] + ([c] + rest);
      SplitFirst(s[1..], rest, c);
      assert [s[0]] + s[1..] == s;
    }
  }

  /** One more line end is one more empty piece. */
  lemma {:induction false} JoinOneEmpty(parts: seq<string>, c: char)
    requires parts != []
    ensures Join(parts + [[]], c) == Join(parts, c) + [c]
  {
    if |parts| == 1 {
      assert (parts + [[]])[1..] == [[]];
      assert [c] + [] == [c];
    } else {
      assert (parts + [[]])[1..] == parts[1..] + [[]];
      JoinOneEmpty(parts[1..], c);
      assert parts[0] + ([c] + (Join(parts[1..], c) + [c])) == parts[0] + ([c] + Join(parts[1..], c)) + [c];
    }
  }

  lemma {:induction false} SplitOfJoin(parts: seq<string>, c: char)
    requires parts != [] && forall k | 0 <= k < |parts| :: c !in parts[k]
    ensures Split(Join(parts, c), c) == parts
  {
    if |parts| == 1 {
      SplitPlain(parts[0], c);
    } else {
      SplitFirst(parts[0], Join(parts[1..], c), c);
      SplitOfJoin(parts[1..], c);
    }
  }

  lemma {:induction false} JoinOfSplit(s: string, c: char)
    ensures Join(Split(s, c), c) == s
    ensures forall k | 0 <= k < |Split(s, c)| :: c !in Split(s, c)[k]
  {
    if s != [] {
      var rest := Split(s[1..], c);
      JoinOfSplit(s[1..], c);
      var parts := Split(s, c);
      if s[0] == c {
        assert parts[1..] == rest;
        assert [] + ([c] + s[1..]) == s;
      } else {
        assert parts[1..] == rest[1..];
        if |rest| > 1 {
          assert [s[0]] + rest[0] + ([c] + Join(rest[1..], c)) == [s[0]] + (rest[0] + ([c] + Join(rest[1..], c)));
        }
        assert [s[0]] + s[1..] == s;
      }
    }
  }
}
