/** Configuration read from the environment, with lazily filled caches. */
module Env {
  import opened Wrappers
  import opened Bytes

  const USIZE_MAX := 0xFFFF_FFFF_FFFF_FFFF
  const ENV_SAMPLE_RATE_UNINITIALIZED := USIZE_MAX
  const ENV_SAMPLE_RATE_UNSET := USIZE_MAX - 1

  datatype PprofBackend = Wrapper | Native
  datatype AllocatorSelection = System | Jemalloc | Mimalloc

  /** The allocators compiled in. */
  datatype Features = Features(jemalloc: bool, mimalloc: bool)

  /** The values of the variables, without their terminating zero; `None` when unset. */
  datatype Environment = Environment(
    allocator: Option<seq<byte>>,
    compatAllocator: Option<seq<byte>>,
    backend: Option<seq<byte>>,
    sampleRate: Option<seq<byte>>)

  const JEMALLOC: seq<byte> := [106, 101, 109, 97, 108, 108, 111, 99]
  const MIMALLOC: seq<byte> := [109, 105, 109, 97, 108, 108, 111, 99]
  const WRAPPER: seq<byte> := [119, 114, 97, 112, 112, 101, 114]
  const PPROF_ALLOC: seq<byte> := [112, 112, 114, 111, 102, 45, 97, 108, 108, 111, 99]
  const RUST: seq<byte> := [114, 117, 115, 116]

  // ---------- comparing C strings ----------

  /** Memory holding a string of non-zero bytes, its terminator, and whatever follows. */
  predicate CString(mem: seq<byte>, s: seq<byte>) {
    s + [0] <= mem && forall i | 0 <= i < |s| :: s[i] != 0
  }

  function Lower(b: byte): byte {
    if 65 <= b <= 90 then b + 32 else b
  }

  predicate SameIgnoringCase(s: seq<byte>, t: seq<byte>) {
    |s| == |t| && forall i | 0 <= i < |s| :: Lower(s[i]) == Lower(t[i])
  }

  /** Reads no byte past the terminator. */
  method CStrEqIgnoreAscii(mem: seq<byte>, expected: seq<byte>, ghost s: seq<byte>) returns (same: bool)
    requires CString(mem, s)
    requires forall i | 0 <= i < |expected| :: expected[i] != 0
    ensures same <==> SameIgnoringCase(s, expected)
  {
    var ptr := 0;
    for k := 0 to |expected|
      invariant ptr == k <= |s|
      invariant forall i | 0 <= i < k :: Lower(s[i]) == Lower(expected[i])
    {
      assert mem[ptr] == (s + [0])[ptr];
      var b := mem[ptr];
      if b == 0 || Lower(b) != Lower(expected[k]) {
        return false;
      }
      ptr := ptr + 1;
    }
    assert mem[ptr] == (s + [0])[ptr];
    same := mem[ptr] == 0;
  }

  // ---------- the sample rate ----------

  predicate IsDigit(b: byte) {
    48 <= b <= 57
  }

  function Digit(b: byte): nat
    requires IsDigit(b)
  {
    b - 48
  }

  /** The decimal value of a digit string. */
  function Decimal(s: seq<byte>): nat
    requires forall i | 0 <= i < |s| :: IsDigit(s[i])
  {
    if s == [] then 0 else Decimal(s[..|s| - 1]) * 10 + Digit(s[|s| - 1])
  }

  function Capped(n: nat): nat {
    if n <= USIZE_MAX then n else USIZE_MAX
  }

  /** A non-empty digit string stands for its value, capped at the largest `usize`. */
  function ParseRate(value: Option<seq<byte>>): Option<nat> {
    match value
    case None => None
    case Some(s) =>
      if s != [] && forall i | 0 <= i < |s| :: IsDigit(s[i]) then Some(Capped(Decimal(s))) else None
  }

  /** A number as a digit string. */
  function DecimalText(n: nat): (s: seq<byte>)
    ensures s != [] && forall i | 0 <= i < |s| :: IsDigit(s[i])
  {
    if n < 10 then [48 + n] else DecimalText(n / 10) + [48 + n % 10]
  }

  lemma {:induction false} DecimalOfText(n: nat)
    ensures Decimal(DecimalText(n)) == n
  {
    var s := DecimalText(n);
    if n < 10 {
      assert s[..0] == [];
    } else {
      DecimalOfText(n / 10);
      assert s[..|s| - 1] == DecimalText(n / 10);
    }
  }

  /** Each digit counts ten times the next, and leading zeros count nothing. */
  lemma {:induction false} DecimalMeans(s: seq<byte>, d: nat)
    requires d < 10 && forall i | 0 <= i < |s| :: 48 <= s[i] <= 57
    ensures Decimal(s + [48 + d]) == 10 * Decimal(s) + d && Decimal([48] + s) == Decimal(s)
  {
    assert (s + [48 + d])[..|s|] == s;
    if s == [] {
      assert Decimal([]) == 0 && [48] + s == [] + [48] && ([] + [48])[..0] == [];
    } else {
      var n := |s| - 1;
      DecimalMeans(s[..n], s[n] - 48);
      assert ([48] + s)[..n + 1] == [48] + s[..n] && s == s[..n] + [s[n]];
    }
  }

  /** Which texts are a rate: digits and nothing else, at least one. Every number is the rate of
      its own text, if it fits. */
  lemma ParseRateMeans(s: seq<byte>, n: nat)
    ensures ParseRate(None) == None
    ensures ParseRate(Some(s)) == None <==> s == [] || exists i | 0 <= i < |s| :: !(48 <= s[i] <= 57)
    ensures s != [] && (forall i | 0 <= i < |s| :: 48 <= s[i] <= 57) ==>
              ParseRate(Some(s)) == Some(if Decimal(s) < 18446744073709551616 then Decimal(s) else 18446744073709551615)
    ensures ParseRate(Some(DecimalText(n))) == Some(if n < 18446744073709551616 then n else 18446744073709551615)
  {
    DecimalOfText(n);
  }

  method ReadPprofSampleRateEnv(mem: seq<byte>, ghost s: seq<byte>) returns (rate: Option<nat>)
    requires CString(mem, s)
    ensures rate == ParseRate(Some(s))
  {
    var value, cursor, sawDigit := 0, 0, false;
    while true
      invariant cursor <= |s|
      invariant forall i | 0 <= i < cursor :: IsDigit(s[i])
      invariant value == Capped(Decimal(s[..cursor]))
      invariant sawDigit <==> cursor > 0
      decreases |s| - cursor
    {
      assert mem[cursor] == (s + [0])[cursor];
      var b := mem[cursor];
      if b == 0 {
        break;
      }
      if !IsDigit(b) {
        return None;
      }
      sawDigit := true;
      value := Capped(value * 10);
      value := Capped(value + Digit(b));
      assert s[..cursor + 1][..cursor] == s[..cursor];
      cursor := cursor + 1;
    }
    assert s[..cursor] == s;
    rate := if sawDigit then Some(value) else None;
  }

  // ---------- the allocator and the profiling backend ----------

  /** A compiled-in selection stands; any other one ends the process. */
  function Validate(selection: AllocatorSelection, features: Features): Option<AllocatorSelection> {
    if (selection.Jemalloc? && !features.jemalloc) || (selection.Mimalloc? && !features.mimalloc) then None
    else Some(selection)
  }

  /** What the environment and the configured default select; `None` ends the process. */
  function Select(env: Environment, default_: AllocatorSelection, features: Features): Option<AllocatorSelection> {
    var value := if env.allocator.Some? then env.allocator else env.compatAllocator;
    match value
    case None => Validate(default_, features)
    case Some(s) =>
      if SameIgnoringCase(s, JEMALLOC) then Validate(Jemalloc, features)
      else if SameIgnoringCase(s, MIMALLOC) then Validate(Mimalloc, features)
      else Some(System)
  }

  function SelectBackend(env: Environment): PprofBackend {
    match env.backend
    case None => Native
    case Some(s) =>
      if SameIgnoringCase(s, WRAPPER) || SameIgnoringCase(s, PPROF_ALLOC) || SameIgnoringCase(s, RUST) then Wrapper
      else Native
  }

  /** The text is the word, in capitals or not. */
  predicate Spells(s: seq<byte>, word: string) {
    && |s| == |word|
    && forall k | 0 <= k < |s| ::
         || s[k] == word[k] as int
         || ('a' <= word[k] <= 'z' && s[k] == word[k] as int - 32)
  }

  lemma SpellsExactly(s: seq<byte>, t: seq<byte>, word: string)
    requires |t| == |word| && forall k | 0 <= k < |t| :: t[k] == word[k] as int && !('A' <= word[k] <= 'Z')
    ensures SameIgnoringCase(s, t) <==> Spells(s, word)
  {
    if |s| == |t| {
      forall k | 0 <= k < |s|
        ensures Lower(s[k]) == Lower(t[k]) <==>
                  s[k] == word[k] as int || ('a' <= word[k] <= 'z' && s[k] == word[k] as int - 32)
      {
      }
    }
  }

  lemma WordsSpelled(s: seq<byte>)
    ensures SameIgnoringCase(s, JEMALLOC) <==> Spells(s, "jemalloc")
    ensures SameIgnoringCase(s, MIMALLOC) <==> Spells(s, "mimalloc")
    ensures SameIgnoringCase(s, WRAPPER) <==> Spells(s, "wrapper")
    ensures SameIgnoringCase(s, PPROF_ALLOC) <==> Spells(s, "pprof-alloc")
    ensures SameIgnoringCase(s, RUST) <==> Spells(s, "rust")
  {
    SpellsExactly(s, JEMALLOC, "jemalloc");
    SpellsExactly(s, MIMALLOC, "mimalloc");
    SpellsExactly(s, WRAPPER, "wrapper");
    SpellsExactly(s, PPROF_ALLOC, "pprof-alloc");
    SpellsExactly(s, RUST, "rust");
  }

  /** The selections that do not end the process. */
  predicate IsBuiltIn(selection: AllocatorSelection, features: Features) {
    match selection case System => true case Jemalloc => features.jemalloc case Mimalloc => features.mimalloc
  }

  /** Which texts select which allocator: the first variable decides if it is set, else the
      second, else the default; any other text means the system's allocator. */
  lemma SelectMeans(env: Environment, default_: AllocatorSelection, features: Features, s: seq<byte>)
    ensures env.allocator == Some(s) || (env.allocator == None && env.compatAllocator == Some(s)) ==>
              Select(env, default_, features) ==
                if Spells(s, "jemalloc") then (if features.jemalloc then Some(Jemalloc) else None)
                else if Spells(s, "mimalloc") then (if features.mimalloc then Some(Mimalloc) else None)
                else Some(System)
    ensures env.allocator == None && env.compatAllocator == None ==>
              Select(env, default_, features) == if IsBuiltIn(default_, features) then Some(default_) else None
  {
    WordsSpelled(s);
  }

  /** The profiling backend is the wrapper for three words only. */
  lemma SelectBackendMeans(env: Environment)
    ensures SelectBackend(env) == Wrapper <==>
              env.backend.Some? && var s := env.backend.value;
                                   Spells(s, "wrapper") || Spells(s, "pprof-alloc") || Spells(s, "rust")
  {
    if env.backend.Some? {
      WordsSpelled(env.backend.value);
    }
  }

  // ---------- the cached rate ----------

  /** What a call answers when it finds `cell` in the cache. */
  function RateFrom(cell: nat, env: Environment, default_: nat): nat {
    if cell == ENV_SAMPLE_RATE_UNINITIALIZED then
      if ParseRate(env.sampleRate).Some? then ParseRate(env.sampleRate).value else default_
    else if cell == ENV_SAMPLE_RATE_UNSET then default_
    else cell
  }

  function CellAfter(cell: nat, env: Environment): nat {
    if cell != ENV_SAMPLE_RATE_UNINITIALIZED then cell
    else if ParseRate(env.sampleRate).Some? then ParseRate(env.sampleRate).value
    else ENV_SAMPLE_RATE_UNSET
  }

  /** The byte codes of the cached selections; zero means not read yet. */
  function AllocatorCode(a: AllocatorSelection): nat {
    match a case System => 1 case Jemalloc => 2 case Mimalloc => 3
  }

  function AllocatorFromCode(code: nat): Option<AllocatorSelection> {
    if code == 1 then Some(System) else if code == 2 then Some(Jemalloc) else if code == 3 then Some(Mimalloc) else None
  }

  function BackendCode(b: PprofBackend): nat {
    match b case Wrapper => 1 case Native => 2
  }

  function BackendFromCode(code: nat): Option<PprofBackend> {
    if code == 1 then Some(Wrapper) else if code == 2 then Some(Native) else None
  }

  /** Environment values hold no zero byte. */
  predicate ProperEnvironment(env: Environment) {
    Proper(env.allocator) && Proper(env.compatAllocator) && Proper(env.backend) && Proper(env.sampleRate)
  }

  predicate Proper(value: Option<seq<byte>>) {
    value.Some? ==> CString(value.value + [0], value.value)
  }

  class EnvCaches {
    const env: Environment
    const features: Features
    var rateCell: nat
    var backendCell: nat
    var allocatorCell: nat

    constructor (env: Environment, features: Features)
      ensures this.env == env && this.features == features
      ensures rateCell == ENV_SAMPLE_RATE_UNINITIALIZED && backendCell == 0 && allocatorCell == 0
    {
      this.env, this.features := env, features;
      rateCell, backendCell, allocatorCell := ENV_SAMPLE_RATE_UNINITIALIZED, 0, 0;
    }

    /** The first call fixes the answer of all later ones; `None` ends the process. */
    method SelectedAllocator(default_: AllocatorSelection) returns (selected: Option<AllocatorSelection>)
      requires ProperEnvironment(env)
      modifies this`allocatorCell
      ensures selected == if AllocatorFromCode(old(allocatorCell)).Some? then AllocatorFromCode(old(allocatorCell))
                          else Select(env, default_, features)
      ensures selected.Some? ==> AllocatorFromCode(allocatorCell) == selected
    {
      selected := AllocatorFromCode(allocatorCell);
      if selected.Some? {
        return;
      }
      var value := if env.allocator.Some? then env.allocator else env.compatAllocator;
      if value.None? {
        selected := Validate(default_, features);
      } else {
        var isJemalloc := CStrEqIgnoreAscii(value.value + [0], JEMALLOC, value.value);
        var isMimalloc := CStrEqIgnoreAscii(value.value + [0], MIMALLOC, value.value);
        selected := if isJemalloc then Validate(Jemalloc, features)
                    else if isMimalloc then Validate(Mimalloc, features) else Some(System);
      }
      if selected.Some? {
        allocatorCell := AllocatorCode(selected.value);
      }
    }

    method SelectedPprofBackend() returns (backend: PprofBackend)
      requires ProperEnvironment(env)
      modifies this`backendCell
      ensures Some(backend) == if BackendFromCode(old(backendCell)).Some? then BackendFromCode(old(backendCell))
                               else Some(SelectBackend(env))
      ensures BackendFromCode(backendCell) == Some(backend)
    {
      if BackendFromCode(backendCell).Some? {
        return BackendFromCode(backendCell).value;
      }
      backend := Native;
      if env.backend.Some? {
        var value := env.backend.value;
        var w := CStrEqIgnoreAscii(value + [0], WRAPPER, value);
        var p := CStrEqIgnoreAscii(value + [0], PPROF_ALLOC, value);
        var r := CStrEqIgnoreAscii(value + [0], RUST, value);
        if w || p || r {
          backend := Wrapper;
        }
      }
      backendCell := BackendCode(backend);
    }

    method PprofSampleRate(default_: nat) returns (rate: nat)
      requires ProperEnvironment(env)
      modifies this`rateCell
      ensures rate == RateFrom(old(rateCell), env, default_) && rateCell == CellAfter(old(rateCell), env)
    {
      var cell := rateCell;
      if cell == ENV_SAMPLE_RATE_UNSET {
        return default_;
      }
      if cell != ENV_SAMPLE_RATE_UNINITIALIZED {
        return cell;
      }
      var parsed := None;
      if env.sampleRate.Some? {
        parsed := ReadPprofSampleRateEnv(env.sampleRate.value + [0], env.sampleRate.value);
      }
      if parsed.Some? {
        rateCell := parsed.value;
        rate := parsed.value;
      } else {
        rateCell := ENV_SAMPLE_RATE_UNSET;
        rate := default_;
      }
    }
  }

  /** The cache after `n` calls. */
  function CellAfterCalls(env: Environment, n: nat): nat {
    if n == 0 then ENV_SAMPLE_RATE_UNINITIALIZED else CellAfter(CellAfterCalls(env, n - 1), env)
  }

  /** What call number `n` answers. */
  function Answer(env: Environment, default_: nat, n: nat): nat {
    RateFrom(CellAfterCalls(env, n), env, default_)
  }

  /** The one value that the cache cannot tell from an unset variable. */
  predicate Confusable(env: Environment, default_: nat) {
    ParseRate(env.sampleRate) == Some(ENV_SAMPLE_RATE_UNSET) && default_ != ENV_SAMPLE_RATE_UNSET
  }

  lemma {:induction false} CellsSettle(env: Environment, n: nat)
    ensures CellAfterCalls(env, n) == ENV_SAMPLE_RATE_UNINITIALIZED
         || CellAfterCalls(env, n) == CellAfter(ENV_SAMPLE_RATE_UNINITIALIZED, env)
  {
    if n > 0 {
      CellsSettle(env, n - 1);
    }
  }

  /** Every call answers with the variable's rate if it has one, and otherwise with the default;
      but the one value that marks an unset variable is answered by the first call only. */
  lemma AnswerIs(env: Environment, default_: nat, n: nat)
    ensures Answer(env, default_, n) ==
              match ParseRate(env.sampleRate)
              case None => default_
              case Some(rate) => if n > 0 && rate == 18446744073709551614 then default_ else rate
  {
    CellsSettle(env, n);
    if n > 0 {
      CellsSettle(env, n - 1);
    }
  }

  /** All calls answer alike, whatever the number of calls, exactly when the variable does
      not hold the sentinel. */
  lemma RateIsStable(env: Environment, default_: nat)
    ensures (forall n: nat :: Answer(env, default_, n) == Answer(env, default_, 0)) <==> !Confusable(env, default_)
  {
    if !Confusable(env, default_) {
      forall n: nat ensures Answer(env, default_, n) == Answer(env, default_, 0) {
        AnswerIs(env, default_, n);
        AnswerIs(env, default_, 0);
      }
    } else {
      AnswerIs(env, default_, 0);
      AnswerIs(env, default_, 1);
    }
  }

  /** The rate variable holding 18446744073709551614, and the other variables unset. */
  function SentinelEnvironment(): Environment {
    Environment(None, None, None, Some(DecimalText(ENV_SAMPLE_RATE_UNSET)))
  }

  /** That environment is confusable under every other default: the first call answers with the
      variable's value and the second with the default. */
  lemma SentinelIsConfusable(default_: nat)
    requires default_ != ENV_SAMPLE_RATE_UNSET
    ensures ProperEnvironment(SentinelEnvironment()) && Confusable(SentinelEnvironment(), default_)
    ensures Answer(SentinelEnvironment(), default_, 0) == ENV_SAMPLE_RATE_UNSET
    ensures Answer(SentinelEnvironment(), default_, 1) == default_
  {
    DecimalOfText(ENV_SAMPLE_RATE_UNSET);
    var env := SentinelEnvironment();
    assert CellAfterCalls(env, 1) == CellAfter(CellAfterCalls(env, 0), env);
  }
}
