/** The name the core gives a timestamp descriptor whose consumer left
    `name` null: `scnprintf(buf, 10, "ts_%u", con_id)`. The buffer holds nine
    characters and the terminator, so the rendering is cut after nine. */
module HteNaming {
  import opened Kernel

  /** Size of the buffer the core allocates for a generated name. */
  const HTE_TS_NAME_LEN: nat := 10

  function DigitChar(d: nat): (c: char)
    requires d < 10
    ensures '0' <= c <= '9' && c as int - '0' as int == d
  {
    ('0' as int + d) as char
  }

  /** `%u`: decimal digits, most significant first, no leading zeros. */
  function Decimal(n: nat): (s: string)
    decreases n
  {
    if n < 10 then [DigitChar(n)] else Decimal(n / 10) + [DigitChar(n % 10)]
  }

  predicate IsDigits(s: string)
  {
    forall i :: 0 <= i < |s| ==> '0' <= s[i] <= '9'
  }

  /** Reads decimal digits back into a number (the partner of `Decimal`). */
  function ParseDecimal(s: string): nat
    requires IsDigits(s)
  {
    if s == [] then 0
    else ParseDecimal(s[..|s| - 1]) * 10 + (s[|s| - 1] as int - '0' as int)
  }

  /** Rendering and parsing are inverse; the rendering is non-empty digits. */
  lemma {:induction false} DecimalRoundTrip(n: nat)
    ensures IsDigits(Decimal(n)) && |Decimal(n)| >= 1
    ensures ParseDecimal(Decimal(n)) == n
    decreases n
  {
    if n >= 10 {
      DecimalRoundTrip(n / 10);
      var s := Decimal(n);
      assert s[..|s| - 1] == Decimal(n / 10);
    }
  }

  /** Number of decimal digits: at most `k` exactly when `n < 10^k`. */
  lemma {:induction false} DecimalLength(n: nat, k: nat)
    requires k >= 1
    ensures |Decimal(n)| <= k <==> n < Pow10(k)
    decreases n
  {
    if n >= 10 {
      if k == 1 {
        DecimalRoundTrip(n / 10);
      } else {
        DecimalLength(n / 10, k - 1);
      }
    }
  }

  function Pow10(k: nat): (p: nat)
    ensures p >= 1
  {
    if k == 0 then 1 else 10 * Pow10(k - 1)
  }

  /** `scnprintf` into a buffer of `size` bytes keeps the longest prefix
      that leaves room for the terminator: all of `s` when it fits, its
      first `size - 1` characters otherwise. */
  function Truncate(s: string, size: nat): (t: string)
    requires size >= 1
    ensures t <= s && |t| == (if |s| <= size - 1 then |s| else size - 1)
    ensures t == s[..if |s| <= size - 1 then |s| else size - 1]
  {
    if |s| <= size - 1 then s else s[..size - 1]
  }

  /** The generated name `ts_<con_id>`, as stored in the 10-byte buffer:
      the longest prefix of the full text that fits in nine characters. */
  function AutoName(conId: u32): (name: string)
    ensures var full := "ts_" + Decimal(conId);
            name <= full && |name| == (if |full| <= HTE_TS_NAME_LEN - 1 then |full| else HTE_TS_NAME_LEN - 1)
    ensures var full := "ts_" + Decimal(conId);
            name == full[..if |full| <= HTE_TS_NAME_LEN - 1 then |full| else HTE_TS_NAME_LEN - 1]
  {
    Truncate("ts_" + Decimal(conId), HTE_TS_NAME_LEN)
  }

  /** Ids below one million fit: the name is `ts_` followed by all digits,
      and the id can be read back from it. */
  lemma AutoNameFits(conId: u32)
    requires conId < 1_000_000
    ensures AutoName(conId) == "ts_" + Decimal(conId)
    ensures AutoName(conId)[..3] == "ts_" && IsDigits(AutoName(conId)[3..])
    ensures ParseDecimal(AutoName(conId)[3..]) == conId
  {
    DecimalLength(conId, 6);
    assert Pow10(6) == 1_000_000;
    DecimalRoundTrip(conId);
    assert AutoName(conId)[3..] == Decimal(conId);
  }

  /** Below one million distinct ids get distinct names. */
  lemma AutoNameInjective(a: u32, b: u32)
    requires a < 1_000_000 && b < 1_000_000
    requires AutoName(a) == AutoName(b)
    ensures a == b
  {
    AutoNameFits(a);
    AutoNameFits(b);
  }

  /** From one million on the seventh digit no longer fits, so neighbouring
      ids share a name. */
  lemma AutoNameTruncates()
    ensures AutoName(1_000_000) == AutoName(1_000_001) == "ts_100000"
  {
    assert Decimal(1_000_000) == "1000000";
    assert Decimal(1_000_001) == "1000001";
  }
}
