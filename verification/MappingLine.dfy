/** The header line of an `smaps` entry: the regular expression as runs of character classes. */
module MappingLines {
  import opened Bytes
  import opened Text
  import opened Wrappers

  datatype Permissions = Permissions(read: bool, write: bool, execute: bool, shared: bool, exclusive: bool)

  datatype Device = Device(major: nat, minor: nat)

  datatype Mapping = Mapping(start: nat, end: nat, perms: Permissions, offset: nat, device: Device, inode: nat,
                             pathname: Option<string>)

  // ---------- permissions ----------

  function PermissionsOf(s: string): Permissions {
    Permissions('r' in s, 'w' in s, 'x' in s, 's' in s, 'p' in s)
  }

  /** Each letter sets its own flag; the order of letters and any other character are ignored. */
  method ReadPermissions(s: string) returns (perms: Permissions)
    ensures perms == PermissionsOf(s)
  {
    perms := Permissions(false, false, false, false, false);
    var i := 0;
    while i < |s|
      invariant 0 <= i <= |s| && perms == PermissionsOf(s[..i])
    {
      assert s[..i + 1] == s[..i] + [s[i]];
      match s[i] {
        case 'r' => perms := perms.(read := true);
        case 'w' => perms := perms.(write := true);
        case 'x' => perms := perms.(execute := true);
        case 's' => perms := perms.(shared := true);
        case 'p' => perms := perms.(exclusive := true);
        case _ =>
      }
      i := i + 1;
    }
    assert s[..i] == s;
  }

  // ---------- runs of character classes ----------

  datatype Class = Hex | Digits | Perms | Space | Dash | Colon

  predicate InClass(c: char, class_: Class) {
    match class_
    case Hex => '0' <= c <= '9' || 'a' <= c <= 'f'
    case Digits => '0' <= c <= '9'
    case Perms => c == 'r' || c == 'w' || c == 's' || c == 'x' || c == 'p' || c == '-'
    case Space => IsTrimmed(c)
    case Dash => c == '-'
    case Colon => c == ':'
  }

  /** The punctuation classes match one character, the others a whole run. */
  predicate Single(class_: Class) {
    class_.Dash? || class_.Colon?
  }

  predicate IsRun(s: string, class_: Class) {
    && s != [] && (Single(class_) ==> |s| == 1)
    && forall k | 0 <= k < |s| :: InClass(s[k], class_)
  }

  /** The longest prefix in the class. */
  function RunLength(s: string, class_: Class): (n: nat)
    ensures n <= |s| && (forall k | 0 <= k < n :: InClass(s[k], class_)) && (n < |s| ==> !InClass(s[n], class_))
  {
    if s == [] || !InClass(s[0], class_) then 0 else 1 + RunLength(s[1..], class_)
  }

  /** What a class takes from the front of a text. */
  function Taken(s: string, class_: Class): (n: nat)
    ensures n <= |s| && (n > 0 ==> IsRun(s[..n], class_))
  {
    var n := RunLength(s, class_);
    if Single(class_) && n > 1 then 1 else n
  }

  /** The pieces a pattern takes, one non-empty run for each class, and what is left. */
  function Match(pattern: seq<Class>, s: string): (r: Option<(seq<string>, string)>)
    ensures r.Some? ==> |r.value.0| == |pattern|
  {
    if pattern == [] then Some(([], s))
    else
      var n := Taken(s, pattern[0]);
      if n == 0 then None
      else match Match(pattern[1..], s[n..])
        case None => None
        case Some((texts, rest)) => Some(([s[..n]] + texts, rest))
  }

  function Concat(texts: seq<string>): string {
    if texts == [] then [] else texts[0] + Concat(texts[1..])
  }

  /** A class never continues into the run after it, so runs can be taken greedily. */
  predicate Separated(pattern: seq<Class>) {
    forall k | 0 <= k < |pattern| - 1 :: Single(pattern[k]) || Disjoint(pattern[k], pattern[k + 1])
  }

  predicate Disjoint(a: Class, b: Class) {
    forall c: char :: InClass(c, b) ==> !InClass(c, a)
  }

  /** Texts that spell out a pattern. */
  predicate Spell(texts: seq<string>, pattern: seq<Class>) {
    |texts| == |pattern| && forall k | 0 <= k < |texts| :: IsRun(texts[k], pattern[k])
  }

  lemma {:induction false} SpellMore(text: string, texts: seq<string>, pattern: seq<Class>)
    requires pattern != [] && IsRun(text, pattern[0]) && Spell(texts, pattern[1..])
    ensures Spell([text] + texts, pattern) && Concat([text] + texts) == text + Concat(texts)
  {
    assert ([text] + texts)[1..] == texts;
    forall k | 0 < k < |pattern| ensures IsRun(([text] + texts)[k], pattern[k]) {
      assert IsRun(texts[k - 1], pattern[1..][k - 1]);
    }
  }

  lemma {:induction false} MatchSound(pattern: seq<Class>, s: string)
    requires Match(pattern, s).Some?
    ensures Spell(Match(pattern, s).value.0, pattern)
    ensures Concat(Match(pattern, s).value.0) + Match(pattern, s).value.1 == s
  {
    if pattern != [] {
      var n := Taken(s, pattern[0]);
      MatchSound(pattern[1..], s[n..]);
      var more := Match(pattern[1..], s[n..]).value;
      SpellMore(s[..n], more.0, pattern);
      SplitAt(s, n, Concat(more.0), more.1);
    }
  }

  lemma SplitAt(s: string, n: nat, a: string, b: string)
    requires n <= |s| && a + b == s[n..]
    ensures s[..n] + a + b == s
  {
    assert s[..n] + a + b == s[..n] + (a + b);
  }

  lemma {:induction false} RunLengthIs(s: string, n: nat, class_: Class)
    requires n <= |s| && (forall k | 0 <= k < n :: InClass(s[k], class_)) && (n < |s| ==> !InClass(s[n], class_))
    ensures RunLength(s, class_) == n
  {
    if n > 0 {
      RunLengthIs(s[1..], n - 1, class_);
    }
  }

  lemma TakenIs(text: string, rest: string, class_: Class)
    requires IsRun(text, class_) && (Single(class_) || rest == [] || !InClass(rest[0], class_))
    ensures Taken(text + rest, class_) == |text|
  {
    if !Single(class_) {
      RunLengthIs(text + rest, |text|, class_);
    } else {
      assert (text + rest)[0] == text[0];
    }
  }

  /** Greedy taking finds the only way in which a text spells a separated pattern. */
  lemma {:induction false} MatchComplete(pattern: seq<Class>, texts: seq<string>, rest: string)
    requires pattern != [] && Separated(pattern) && Spell(texts, pattern)
    requires Single(pattern[|pattern| - 1]) || rest == [] || !InClass(rest[0], pattern[|pattern| - 1])
    ensures Match(pattern, Concat(texts) + rest) == Some((texts, rest))
  {
    var more := Concat(texts[1..]) + rest;
    assert Concat(texts) + rest == texts[0] + more;
    if |pattern| == 1 {
      assert more == rest;
    } else {
      assert IsRun(texts[1], pattern[1]) && more[0] == texts[1][0];
      assert Single(pattern[0]) || Disjoint(pattern[0], pattern[1]);
      MatchComplete(pattern[1..], texts[1..], rest);
    }
    TakenIs(texts[0], more, pattern[0]);
    assert (texts[0] + more)[..|texts[0]|] == texts[0] && (texts[0] + more)[|texts[0]|..] == more;
    assert [texts[0]] + texts[1..] == texts;
  }

  // ---------- the header line ----------

  const PATTERN: seq<Class> := [Hex, Dash, Hex, Space, Perms, Space, Hex, Space, Hex, Colon, Hex, Space, Digits]

  /** What may follow the inode: nothing, or white space and a path. */
  predicate IsTail(rest: string) {
    rest == [] || (IsTrimmed(rest[0]) && '\n' !in TrimStart(rest))
  }

  function PathOf(rest: string): Option<string> {
    if rest == [] then None else Some(TrimStart(rest))
  }

  /** The fields as numbers; none when one of them exceeds 64 bits. */
  function Fields(texts: seq<string>, rest: string): Option<Mapping>
    requires |texts| == 13
  {
    var start, end, offset := ParseUnsigned(texts[0], 16), ParseUnsigned(texts[2], 16), ParseUnsigned(texts[6], 16);
    var major, minor := ParseUnsigned(texts[8], 16), ParseUnsigned(texts[10], 16);
    var inode := ParseUnsigned(texts[12], 10);
    if start.None? || end.None? || offset.None? || major.None? || minor.None? || inode.None? then None
    else
      Some(Mapping(start.value, end.value, PermissionsOf(texts[4]), offset.value,
                   Device(major.value, minor.value), inode.value, PathOf(rest)))
  }

  function ReadMapping(line: string): Option<Mapping> {
    match Match(PATTERN, Trim(line))
    case None => None
    case Some((texts, rest)) => if IsTail(rest) then Fields(texts, rest) else None
  }

  lemma SpaceIsDisjoint(a: Class)
    requires a.Hex? || a.Digits? || a.Perms?
    ensures Disjoint(a, Space) && Disjoint(Space, a)
  {
  }

  lemma PunctuationIsDisjoint()
    ensures Disjoint(Hex, Dash) && Disjoint(Hex, Colon)
  {
  }

  lemma PatternIsSeparated()
    ensures |PATTERN| == 13 && Separated(PATTERN) && PATTERN[12] == Digits
  {
    SpaceIsDisjoint(Hex);
    SpaceIsDisjoint(Digits);
    SpaceIsDisjoint(Perms);
    PunctuationIsDisjoint();
    forall k | 0 <= k < 12 ensures Single(PATTERN[k]) || Disjoint(PATTERN[k], PATTERN[k + 1]) {
    }
  }

  /** A trimmed text split into the fields of the pattern and an admissible tail. */
  predicate IsSplit(texts: seq<string>, rest: string, s: string) {
    Spell(texts, PATTERN) && IsTail(rest) && Concat(texts) + rest == s
  }

  lemma {:induction false} SplitIsMatched(texts: seq<string>, rest: string, s: string)
    requires IsSplit(texts, rest, s)
    ensures Match(PATTERN, s) == Some((texts, rest))
  {
    PatternIsSeparated();
    MatchComplete(PATTERN, texts, rest);
  }

  predicate Drawn(s: string, letters: string) {
    s != [] && forall k | 0 <= k < |s| :: s[k] in letters
  }

  /** The text of a header: five hexadecimal numbers in lower case, the letters of the permissions
      and a decimal number, with a dash, a colon and white space between them, and at most a path
      on the same line after more white space. */
  predicate IsHeaderText(texts: seq<string>, rest: string, s: string) {
    && |texts| == 13 && Concat(texts) + rest == s
    && Drawn(texts[0], "0123456789abcdef") && texts[1] == "-" && Drawn(texts[2], "0123456789abcdef")
    && texts[3] != [] && AllTrimmed(texts[3]) && Drawn(texts[4], "rwsxp-")
    && texts[5] != [] && AllTrimmed(texts[5]) && Drawn(texts[6], "0123456789abcdef")
    && texts[7] != [] && AllTrimmed(texts[7]) && Drawn(texts[8], "0123456789abcdef")
    && texts[9] == ":" && Drawn(texts[10], "0123456789abcdef")
    && texts[11] != [] && AllTrimmed(texts[11]) && Drawn(texts[12], "0123456789")
    && (rest != [] ==> IsTrimmed(rest[0]) && '\n' !in TrimStart(rest))
  }

  /** The values of the fields; a number that does not fit 64 bits has none. */
  predicate FieldsMean(texts: seq<string>, rest: string, m: Mapping)
    requires |texts| == 13
  {
    && ParseUnsigned(texts[0], 16) == Some(m.start) && ParseUnsigned(texts[2], 16) == Some(m.end)
    && (m.perms.read <==> 'r' in texts[4]) && (m.perms.write <==> 'w' in texts[4])
    && (m.perms.execute <==> 'x' in texts[4]) && (m.perms.shared <==> 's' in texts[4])
    && (m.perms.exclusive <==> 'p' in texts[4])
    && ParseUnsigned(texts[6], 16) == Some(m.offset)
    && ParseUnsigned(texts[8], 16) == Some(m.device.major) && ParseUnsigned(texts[10], 16) == Some(m.device.minor)
    && ParseUnsigned(texts[12], 10) == Some(m.inode)
    && (m.pathname.None? <==> rest == [])
    && (m.pathname.Some? ==> m.pathname.value == TrimStart(rest))
  }

  lemma HexDrawn(s: string)
    ensures IsRun(s, Hex) <==> Drawn(s, "0123456789abcdef")
  {
    forall k | 0 <= k < |s| ensures InClass(s[k], Hex) <==> s[k] in "0123456789abcdef" {
      if '0' <= s[k] <= '9' {
        assert "0123456789abcdef"[s[k] as int - '0' as int] == s[k];
      } else if 'a' <= s[k] <= 'f' {
        assert "0123456789abcdef"[s[k] as int - 'a' as int + 10] == s[k];
      }
    }
  }

  lemma DigitsDrawn(s: string)
    ensures IsRun(s, Digits) <==> Drawn(s, "0123456789")
  {
    forall k | 0 <= k < |s| ensures InClass(s[k], Digits) <==> s[k] in "0123456789" {
      if '0' <= s[k] <= '9' {
        assert "0123456789"[s[k] as int - '0' as int] == s[k];
      }
    }
  }

  lemma PermsDrawn(s: string)
    ensures IsRun(s, Perms) <==> Drawn(s, "rwsxp-")
  {
    assert "rwsxp-" == ['r', 'w', 's', 'x', 'p', '-'];
  }

  lemma PunctuationDrawn(s: string)
    ensures IsRun(s, Dash) <==> s == "-"
    ensures IsRun(s, Colon) <==> s == ":"
    ensures IsRun(s, Space) <==> s != [] && AllTrimmed(s)
  {
  }

  /** The pattern, run by run. */
  lemma SpellIs(texts: seq<string>)
    requires |texts| == 13
    ensures Spell(texts, PATTERN) <==>
              && IsRun(texts[0], Hex) && IsRun(texts[1], Dash) && IsRun(texts[2], Hex) && IsRun(texts[3], Space)
              && IsRun(texts[4], Perms) && IsRun(texts[5], Space) && IsRun(texts[6], Hex) && IsRun(texts[7], Space)
              && IsRun(texts[8], Hex) && IsRun(texts[9], Colon) && IsRun(texts[10], Hex) && IsRun(texts[11], Space)
              && IsRun(texts[12], Digits)
  {
    hide IsRun;
    assert |PATTERN| == 13;
  }

  lemma HeaderTextIsSplit(texts: seq<string>, rest: string, s: string)
    ensures IsSplit(texts, rest, s) <==> IsHeaderText(texts, rest, s)
  {
    if |texts| == 13 {
      assert IsTail(rest) <==> (rest != [] ==> IsTrimmed(rest[0]) && '\n' !in TrimStart(rest));
      hide Drawn, IsRun, AllTrimmed, Spell, Concat, IsTail, TrimStart, IsTrimmed;
      SpellIs(texts);
      HexDrawn(texts[0]);
      PunctuationDrawn(texts[1]);
      HexDrawn(texts[2]);
      PunctuationDrawn(texts[3]);
      PermsDrawn(texts[4]);
      PunctuationDrawn(texts[5]);
      HexDrawn(texts[6]);
      PunctuationDrawn(texts[7]);
      HexDrawn(texts[8]);
      PunctuationDrawn(texts[9]);
      HexDrawn(texts[10]);
      PunctuationDrawn(texts[11]);
      DigitsDrawn(texts[12]);
    } else {
      assert |PATTERN| == 13;
    }
  }

  lemma FieldsAre(texts: seq<string>, rest: string, m: Mapping)
    requires |texts| == 13
    ensures Fields(texts, rest) == Some(m) <==> FieldsMean(texts, rest, m)
  {
  }

  /** A line is a header with a given meaning exactly when its trimmed text can be split into the
      fields of a header with that meaning. */
  lemma HeaderExactly(line: string, m: Mapping)
    ensures ReadMapping(line) == Some(m) <==>
              exists texts: seq<string>, rest: string ::
                IsHeaderText(texts, rest, Trim(line)) && FieldsMean(texts, rest, m)
  {
    hide Match, Fields, FieldsMean, IsSplit, Trim;
    var s := Trim(line);
    if ReadMapping(line) == Some(m) {
      MatchIsSplit(s);
      var texts, rest := Match(PATTERN, s).value.0, Match(PATTERN, s).value.1;
      HeaderTextIsSplit(texts, rest, s);
      FieldsAre(texts, rest, m);
    }
    forall texts: seq<string>, rest: string | IsHeaderText(texts, rest, s) && FieldsMean(texts, rest, m)
      ensures ReadMapping(line) == Some(m)
    {
      HeaderTextIsSplit(texts, rest, s);
      SplitIsMatched(texts, rest, s);
      FieldsAre(texts, rest, m);
    }
  }

  lemma MatchIsSplit(s: string)
    requires Match(PATTERN, s).Some? && IsTail(Match(PATTERN, s).value.1)
    ensures IsSplit(Match(PATTERN, s).value.0, Match(PATTERN, s).value.1, s)
  {
    MatchSound(PATTERN, s);
  }

  /** A line without a dash is not a header. */
  lemma HeaderHasDash(line: string)
    requires ReadMapping(line).Some?
    ensures '-' in line
  {
    var s := Trim(line);
    MatchSound(PATTERN, s);
    var texts, rest := Match(PATTERN, s).value.0, Match(PATTERN, s).value.1;
    assert IsRun(texts[1], PATTERN[1]) && texts[1][0] == '-';
    InConcat(texts, 1, '-');
    assert '-' in Concat(texts) + rest;
    TrimOnlyRemoves(line, '-');
  }

  lemma {:induction false} InConcat(texts: seq<string>, k: nat, c: char)
    requires k < |texts| && c in texts[k]
    ensures c in Concat(texts)
  {
    if k > 0 {
      InConcat(texts[1..], k - 1, c);
    }
  }

  // ---------- printing a header ----------

  /** The white space of a header line. */
  datatype Spacing = Spacing(before: string, afterEnd: string, afterPerms: string, afterOffset: string,
                             afterDevice: string, beforePath: string, after: string)

  predicate ValidSpacing(w: Spacing) {
    && IsRun(w.afterEnd, Space) && IsRun(w.afterPerms, Space) && IsRun(w.afterOffset, Space)
    && IsRun(w.afterDevice, Space) && IsRun(w.beforePath, Space)
    && AllTrimmed(w.before) && AllTrimmed(w.after)
  }

  predicate ValidMapping(m: Mapping) {
    && m.start < U64_LIMIT && m.end < U64_LIMIT && m.offset < U64_LIMIT
    && m.device.major < U64_LIMIT && m.device.minor < U64_LIMIT && m.inode < U64_LIMIT
    && (m.pathname.Some? ==> ValidPath(m.pathname.value))
  }

  predicate ValidPath(path: string) {
    path != [] && !IsTrimmed(path[0]) && !IsTrimmed(path[|path| - 1]) && '\n' !in path
  }

  function PrintPermissions(p: Permissions): string {
    (if p.read then "r" else "-") + (if p.write then "w" else "-") + (if p.execute then "x" else "-")
    + (if p.shared then "s" else "") + (if p.exclusive then "p" else "")
  }

  /** Zeros in front, up to a width. */
  function Pad(s: string, width: nat): (r: string)
    ensures |r| >= |s|
    decreases width - |s|
  {
    if |s| >= width then s else Pad(['0'] + s, width)
  }

  function HeaderTexts(m: Mapping, w: Spacing): seq<string> {
    [Pad(Print(m.start, 16), 8), "-", Pad(Print(m.end, 16), 8), w.afterEnd, PrintPermissions(m.perms), w.afterPerms,
     Pad(Print(m.offset, 16), 8), w.afterOffset, Pad(Print(m.device.major, 16), 2), ":",
     Pad(Print(m.device.minor, 16), 2), w.afterDevice, Print(m.inode, 10)]
  }

  function HeaderTail(m: Mapping, w: Spacing): string {
    if m.pathname.None? then "" else w.beforePath + m.pathname.value
  }

  function PrintMapping(m: Mapping, w: Spacing): string {
    w.before + (Concat(HeaderTexts(m, w)) + HeaderTail(m, w)) + w.after
  }

  lemma {:induction false} ValueOfZero(s: string, base: nat)
    requires base > 0
    ensures Value(['0'] + s, base) == Value(s, base)
  {
    var t := ['0'] + s;
    if s == [] {
      assert t[..0] == [] && t[0] == '0';
    } else {
      assert t[..|t| - 1] == ['0'] + s[..|s| - 1] && t[|t| - 1] == s[|s| - 1];
      ValueOfZero(s[..|s| - 1], base);
    }
  }

  lemma {:induction false} PadKeeps(s: string, width: nat, base: nat)
    requires base > 0 && s != [] && forall k | 0 <= k < |s| :: InClass(s[k], Hex)
    ensures Value(Pad(s, width), base) == Value(s, base)
    ensures IsRun(Pad(s, width), Hex)
    decreases width - |s|
  {
    if |s| < width {
      ValueOfZero(s, base);
      PadKeeps(['0'] + s, width, base);
    }
  }

  lemma {:induction false} PrintIsRun(n: nat, base: nat)
    requires base == 10 || base == 16
    ensures IsRun(Print(n, base), if base == 10 then Digits else Hex)
  {
    if n >= base {
      PrintIsRun(n / base, base);
    }
    HexDigitInClass(n % base, base);
  }

  lemma HexDigitInClass(d: nat, base: nat)
    requires (base == 10 || base == 16) && d < base
    ensures InClass(HexDigit(d), if base == 10 then Digits else Hex)
  {
  }

  lemma {:induction false} HexField(n: nat, width: nat)
    requires n < U64_LIMIT
    ensures IsRun(Pad(Print(n, 16), width), Hex) && ParseUnsigned(Pad(Print(n, 16), width), 16) == Some(n)
  {
    PrintIsRun(n, 16);
    ValueOfPrint(n, 16);
    PadKeeps(Print(n, 16), width, 16);
    var text := Pad(Print(n, 16), width);
    assert InClass(text[0], Hex) && text[0] != '+';
  }

  lemma {:induction false} InodeField(n: nat)
    requires n < U64_LIMIT
    ensures IsRun(Print(n, 10), Digits) && ParseUnsigned(Print(n, 10), 10) == Some(n)
  {
    PrintIsRun(n, 10);
    ParseOfPrint(n, 10);
  }

  lemma PermissionsAreRun(p: Permissions)
    ensures IsRun(PrintPermissions(p), Perms)
  {
  }

  lemma PermissionsRoundTrip(p: Permissions)
    ensures PermissionsOf(PrintPermissions(p)) == p
  {
    var r, w, x := if p.read then "r" else "-", if p.write then "w" else "-", if p.execute then "x" else "-";
    var s, e := if p.shared then "s" else "", if p.exclusive then "p" else "";
    forall c: char ensures c in PrintPermissions(p) <==> c in r || c in w || c in x || c in s || c in e {
    }
  }

  lemma SpellsPattern(start: string, end: string, s0: string, perms: string, s1: string, offset: string, s2: string,
                      major: string, minor: string, s3: string, inode: string)
    requires IsRun(start, Hex) && IsRun(end, Hex) && IsRun(perms, Perms) && IsRun(offset, Hex)
    requires IsRun(major, Hex) && IsRun(minor, Hex) && IsRun(inode, Digits)
    requires IsRun(s0, Space) && IsRun(s1, Space) && IsRun(s2, Space) && IsRun(s3, Space)
    ensures Spell([start, "-", end, s0, perms, s1, offset, s2, major, ":", minor, s3, inode], PATTERN)
  {
  }

  lemma HeaderSpells(m: Mapping, w: Spacing)
    requires ValidMapping(m) && ValidSpacing(w)
    ensures Spell(HeaderTexts(m, w), PATTERN)
  {
    HexField(m.start, 8);
    HexField(m.end, 8);
    HexField(m.offset, 8);
    HexField(m.device.major, 2);
    HexField(m.device.minor, 2);
    InodeField(m.inode);
    PermissionsAreRun(m.perms);
    SpellsPattern(Pad(Print(m.start, 16), 8), Pad(Print(m.end, 16), 8), w.afterEnd, PrintPermissions(m.perms),
                  w.afterPerms,
                  Pad(Print(m.offset, 16), 8), w.afterOffset, Pad(Print(m.device.major, 16), 2),
                  Pad(Print(m.device.minor, 16), 2), w.afterDevice, Print(m.inode, 10));
  }

  lemma FieldsOf(start: string, end: string, s0: string, perms: string, s1: string, offset: string, s2: string,
                 major: string, minor: string, s3: string, inode: string, rest: string, m: Mapping)
    requires PermissionsOf(perms) == m.perms && PathOf(rest) == m.pathname
    requires ParseUnsigned(start, 16) == Some(m.start) && ParseUnsigned(end, 16) == Some(m.end)
    requires ParseUnsigned(offset, 16) == Some(m.offset) && ParseUnsigned(major, 16) == Some(m.device.major)
    requires ParseUnsigned(minor, 16) == Some(m.device.minor) && ParseUnsigned(inode, 10) == Some(m.inode)
    ensures Fields([start, "-", end, s0, perms, s1, offset, s2, major, ":", minor, s3, inode], rest) == Some(m)
  {
  }

  lemma HeaderMeans(m: Mapping, w: Spacing)
    requires ValidMapping(m) && PathOf(HeaderTail(m, w)) == m.pathname
    ensures Fields(HeaderTexts(m, w), HeaderTail(m, w)) == Some(m)
  {
    HexField(m.start, 8);
    HexField(m.end, 8);
    HexField(m.offset, 8);
    HexField(m.device.major, 2);
    HexField(m.device.minor, 2);
    InodeField(m.inode);
    PermissionsRoundTrip(m.perms);
    FieldsOf(Pad(Print(m.start, 16), 8), Pad(Print(m.end, 16), 8), w.afterEnd, PrintPermissions(m.perms), w.afterPerms,
             Pad(Print(m.offset, 16), 8), w.afterOffset, Pad(Print(m.device.major, 16), 2),
             Pad(Print(m.device.minor, 16), 2), w.afterDevice, Print(m.inode, 10), HeaderTail(m, w), m);
  }

  lemma TailIsPath(m: Mapping, w: Spacing)
    requires ValidMapping(m) && ValidSpacing(w)
    ensures IsTail(HeaderTail(m, w)) && PathOf(HeaderTail(m, w)) == m.pathname
  {
    if m.pathname.Some? {
      assert forall k | 0 <= k < |w.beforePath| :: InClass(w.beforePath[k], Space);
      TrimStartPadding(w.beforePath, m.pathname.value);
    }
  }

  lemma HeaderEnds(m: Mapping, w: Spacing)
    requires ValidMapping(m) && ValidSpacing(w)
    ensures var s := Concat(HeaderTexts(m, w)) + HeaderTail(m, w); s != [] && !IsTrimmed(s[0]) && !IsTrimmed(s[|s| - 1])
  {
    HexField(m.start, 8);
    InodeField(m.inode);
    var texts := HeaderTexts(m, w);
    ConcatEnds(texts);
    assert InClass(texts[0][0], Hex);
    assert InClass(texts[12][|texts[12]| - 1], Digits);
  }

  lemma {:induction false} ConcatEnds(texts: seq<string>)
    requires texts != [] && texts[0] != [] && texts[|texts| - 1] != []
    ensures var s := Concat(texts);
            && s != [] && s[0] == texts[0][0]
            && s[|s| - 1] == texts[|texts| - 1][|texts[|texts| - 1]| - 1]
  {
    if |texts| > 1 {
      ConcatLast(texts);
    } else {
      assert Concat(texts) == texts[0];
    }
  }

  lemma {:induction false} ConcatLast(texts: seq<string>)
    requires texts != [] && texts[|texts| - 1] != []
    ensures var s := Concat(texts); s != [] && s[|s| - 1] == texts[|texts| - 1][|texts[|texts| - 1]| - 1]
  {
    if |texts| > 1 {
      ConcatLast(texts[1..]);
    } else {
      assert Concat(texts) == texts[0];
    }
  }

  /** A printed header reads back, with any white space between and around its fields. */
  lemma HeaderRoundTrip(m: Mapping, w: Spacing)
    requires ValidMapping(m) && ValidSpacing(w)
    ensures ReadMapping(PrintMapping(m, w)) == Some(m)
  {
    hide HeaderTexts, HeaderTail, Match, Trim, Fields, Spell, IsTail, Concat, ValidMapping;
    var texts, tail := HeaderTexts(m, w), HeaderTail(m, w);
    HeaderSpells(m, w);
    TailIsPath(m, w);
    HeaderMeans(m, w);
    HeaderEnds(m, w);
    TrimPadding(w.before, Concat(texts) + tail, w.after);
    SplitIsMatched(texts, tail, Concat(texts) + tail);
  }
}
