/** Decimal digit strings and Rust's `str::parse::<u8>()` / `parse::<u32>()`
    on them. */
module Decimal {
  import opened Text
  import opened Timestamps
  import opened Outcomes

  predicate AllDigits(ds: string) {
    forall k :: 0 <= k < |ds| ==> IsDigit(ds[k])
  }

  function DigitValue(c: char): nat
    requires IsDigit(c)
  {
    c as int - '0' as int
  }

  function DigitChar(d: nat): (c: char)
    requires d < 10
    ensures IsDigit(c) && DigitValue(c) == d
  {
    ('0' as int + d) as char
  }

  /** The number a digit string denotes, most significant digit first.
      Leading zeros are allowed and the string may be arbitrarily long. */
  function Value(ds: string): nat
    requires AllDigits(ds)
    decreases |ds|
  {
    if |ds| == 0 then 0 else Value(ds[..|ds| - 1]) * 10 + DigitValue(ds[|ds| - 1])
  }

  /** The canonical decimal spelling of `n`, no leading zeros. */
  function Spell(n: nat): (ds: string)
    ensures AllDigits(ds) && |ds| >= 1
    ensures |ds| > 1 ==> ds[0] != '0'
    decreases n
  {
    if n < 10 then [DigitChar(n)] else Spell(n / 10) + [DigitChar(n % 10)]
  }

  /** Reading back a spelled number gives the number. */
  lemma {:induction false} ValueOfSpell(n: nat)
    ensures Value(Spell(n)) == n
    decreases n
  {
    if n >= 10 {
      ValueOfSpell(n / 10);
      var ds := Spell(n);
      assert ds[..|ds| - 1] == Spell(n / 10);
    }
  }

  /** Leading zeros do not change the value: `"007"` denotes 7. */
  lemma {:induction false} ValueIgnoresLeadingZeros(zs: string, ds: string)
    requires forall k :: 0 <= k < |zs| ==> zs[k] == '0'
    requires AllDigits(ds)
    ensures AllDigits(zs + ds) && Value(zs + ds) == Value(ds)
    decreases |ds|
  {
    var xs := zs + ds;
    assert AllDigits(xs) by {
      forall k | 0 <= k < |xs| ensures IsDigit(xs[k]) {
        if k < |zs| { assert xs[k] == zs[k]; } else { assert xs[k] == ds[k - |zs|]; }
      }
    }
    if |ds| == 0 {
      AllZerosValue(zs);
      assert xs == zs;
    } else {
      ValueIgnoresLeadingZeros(zs, ds[..|ds| - 1]);
      assert xs[..|xs| - 1] == zs + ds[..|ds| - 1];
    }
  }

  /** A string of zeros denotes 0. */
  lemma {:induction false} AllZerosValue(zs: string)
    requires forall k :: 0 <= k < |zs| ==> zs[k] == '0'
    ensures AllDigits(zs) && Value(zs) == 0
    decreases |zs|
  {
    if |zs| > 0 {
      AllZerosValue(zs[..|zs| - 1]);
    }
  }

  /** `parse::<u32>()` of a digit string: the value when it fits in 32 bits. */
  function ParseU32(ds: string): (r: Result<u32>)
    requires AllDigits(ds)
    ensures r.Ok? <==> Value(ds) < 0x1_0000_0000
    ensures r.Ok? ==> r.value as int == Value(ds)
    ensures r.Err? ==> r.error == NumberTooLarge
  {
    var v := Value(ds);
    if v < 0x1_0000_0000 then Ok(v as u32) else Err(NumberTooLarge)
  }

  /** `parse::<u8>()` of a digit string: the value when it is at most 255. */
  function ParseU8(ds: string): (r: Result<u8>)
    requires AllDigits(ds)
    ensures r.Ok? <==> Value(ds) < 0x100
    ensures r.Ok? ==> r.value as int == Value(ds)
    ensures r.Err? ==> r.error == NumberTooLarge
  {
    var v := Value(ds);
    if v < 0x100 then Ok(v as u8) else Err(NumberTooLarge)
  }
}
