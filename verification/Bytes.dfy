/** Bytes and their hexadecimal text. */
module Bytes {
  type byte = b: int | 0 <= b < 256

  function HexDigit(n: nat): char
    requires n < 16
  {
    "0123456789abcdef"[n]
  }

  lemma HexDigitsDiffer(m: nat, n: nat)
    requires m < 16 && n < 16 && HexDigit(m) == HexDigit(n)
    ensures m == n
  {
  }

  /** Two lower-case hexadecimal digits for each byte. */
  function BuildIdText(id: seq<byte>): string {
    if id == [] then ""
    else BuildIdText(id[..|id| - 1]) + [HexDigit(id[|id| - 1] / 16), HexDigit(id[|id| - 1] % 16)]
  }

  /** The text spells every byte by its two digits, the high one first. */
  lemma {:induction false} BuildIdTextSpells(id: seq<byte>, k: nat)
    requires k < |id|
    ensures |BuildIdText(id)| == 2 * |id|
    ensures BuildIdText(id)[2 * k] == "0123456789abcdef"[id[k] / 16]
    ensures BuildIdText(id)[2 * k + 1] == "0123456789abcdef"[id[k] % 16]
  {
    BuildIdTextLength(id);
    BuildIdTextLength(id[..|id| - 1]);
    if k < |id| - 1 {
      BuildIdTextSpells(id[..|id| - 1], k);
    }
  }

  /** The text identifies the build id. */
  lemma {:induction false} BuildIdTextIsInjective(a: seq<byte>, b: seq<byte>)
    requires BuildIdText(a) == BuildIdText(b)
    ensures a == b
  {
    BuildIdTextLength(a);
    BuildIdTextLength(b);
    if a != [] {
      var n := |a| - 1;
      var s := BuildIdText(a);
      assert s[..2 * n] == BuildIdText(a[..n]) && s[..2 * n] == BuildIdText(b[..n]);
      assert s[2 * n] == HexDigit(a[n] / 16) && s[2 * n] == HexDigit(b[n] / 16);
      assert s[2 * n + 1] == HexDigit(a[n] % 16) && s[2 * n + 1] == HexDigit(b[n] % 16);
      HexDigitsDiffer(a[n] / 16, b[n] / 16);
      HexDigitsDiffer(a[n] % 16, b[n] % 16);
      BuildIdTextIsInjective(a[..n], b[..n]);
      assert a == a[..n] + [a[n]] && b == b[..n] + [b[n]];
    }
  }

  lemma {:induction false} BuildIdTextLength(id: seq<byte>)
    ensures |BuildIdText(id)| == 2 * |id|
  {
    if id != [] {
      BuildIdTextLength(id[..|id| - 1]);
    }
  }
}
