/** The millisecond clock: real time never wraps, `millis()` wraps at 2^32. */
module Clock {
  const CLOCK := 0x1_0000_0000

  function Millis(now: nat): nat {
    now % CLOCK
  }

  /** What unsigned 32-bit subtraction of two readings gives. */
  function Elapsed(clock: nat, start: nat): nat {
    (clock - start) % CLOCK
  }

  /** Across a wrap the difference is still the real time between, if that is below 2^32. */
  lemma ElapsedIsReal(start: nat, now: nat)
    requires start <= now < start + CLOCK
    ensures Elapsed(Millis(now), Millis(start)) == now - start
  {
    assert now - start == (Millis(now) - Millis(start)) + CLOCK * (now / CLOCK - start / CLOCK);
    assert now / CLOCK == start / CLOCK || now / CLOCK == start / CLOCK + 1;
  }
}
