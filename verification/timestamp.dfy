/** The `Timestamp` value type: minutes, seconds and a "milliseconds" field,
    with the conversion to whole elapsed seconds. */
module Timestamps {

  /** Rust's `u8`. */
  newtype u8 = x: int | 0 <= x < 0x100

  /** Rust's `u32`. */
  newtype u32 = x: int | 0 <= x < 0x1_0000_0000

  /** A position in a track. No field is range-checked: `s` may exceed 59
      (up to 255, the width of `u8`) and `ms` may exceed 999. */
  datatype Timestamp = Timestamp(m: u32, s: u8, ms: u32)

  /** `Timestamp::new`: every field triple is accepted and stored as given. */
  function New(m: u32, s: u8, ms: u32): (t: Timestamp)
    ensures t.m == m && t.s == s && t.ms == ms
  {
    Timestamp(m, s, ms)
  }

  /** The exact position in milliseconds, reading `ms` as milliseconds. */
  function ExactMillis(t: Timestamp): nat
  {
    (t.m as int * 60 + t.s as int) * 1000 + t.ms as int
  }

  /** `Timestamp::seconds`: whole seconds, the `ms` field contributing only
      through integer division by 1000. */
  function Seconds(t: Timestamp): (r: nat)
    // r is the exact position rounded down to a whole second
    ensures r * 1000 <= ExactMillis(t) < (r + 1) * 1000
    // below one second the fraction is lost entirely
    ensures t.ms < 1000 ==> r == t.m as int * 60 + t.s as int
  {
    t.m as int * 60 + t.s as int + t.ms as int / 1000
  }

  /** Worked case: 1 minute, 2 seconds, 345 "milliseconds" is 62 seconds. */
  lemma SecondsOfOneTwoThreeFortyFive()
    ensures Seconds(New(1, 2, 345)) == 62
  {
  }
}
