/** Ticks to nanoseconds by quotient and remainder, in wrapping 64-bit arithmetic. */
module Timer {
  import opened Machine
  import opened Division

  const NS: int := 1_000_000_000

  /** tsc_to_ns and clk_to_ns: every product and sum wraps. */
  function ToNs(ticks: u64, freq: u64): u64
    requires freq > 0
  {
    var q := Div(ticks, freq);
    var r := Mod(ticks, freq);
    Wrap(Wrap(q * NS) + Div(Wrap(r * NS), freq))
  }

  /** The exact conversion. */
  function ExactNs(ticks: nat, freq: nat): nat
    requires freq > 0
  {
    Div(ticks * NS, freq)
  }

  /** No remainder of this frequency overflows when scaled. */
  predicate SmallFreq(freq: u64) {
    (freq - 1) * NS < W
  }

  lemma Scaled(q: nat, f: nat, r: nat)
    ensures (q * f + r) * NS == q * NS * f + r * NS
  {
  }

  /** The two halves add up to the exact conversion. */
  lemma SplitTicks(ticks: nat, freq: nat)
    requires freq > 0
    ensures ExactNs(ticks, freq) == Div(ticks, freq) * NS + Div(Mod(ticks, freq) * NS, freq)
  {
    hide Div, Mod;
    DivMod(ticks, freq);
    var q, r := Div(ticks, freq), Mod(ticks, freq);
    DivMod(r * NS, freq);
    Scaled(q, freq, r);
    Distribute(q * NS, Div(r * NS, freq), freq);
    DivUnique(ticks * NS, freq, q * NS + Div(r * NS, freq), Mod(r * NS, freq));
  }

  lemma Distribute(a: nat, b: nat, f: nat)
    ensures (a + b) * f == a * f + b * f
  {
  }

  // ---- The conversion ----

  /** With a frequency small enough the split form is exact whenever the result fits 64 bits. */
  lemma ToNsExact(ticks: u64, freq: u64)
    requires freq > 0 && SmallFreq(freq) && ExactNs(ticks, freq) < W
    ensures ToNs(ticks, freq) == ExactNs(ticks, freq)
  {
    hide ExactNs, Div, Mod;
    SplitTicks(ticks, freq);
    DivMod(ticks, freq);
  }

  /** And for any larger frequency some reading is converted wrongly although its result fits. */
  lemma ToNsInexact(freq: u64)
    requires freq > 0 && !SmallFreq(freq)
    ensures
      var ticks := freq - 1;
      ExactNs(ticks, freq) < W && ToNs(ticks, freq) != ExactNs(ticks, freq)
  {
    hide Div, Mod;
    var x := (freq - 1) * NS;
    DivUnique(freq - 1, freq, 0, freq - 1);
    DivGap(Wrap(x), x, freq);
    DivUnique(NS * freq, freq, NS, 0);
    DivMonotone(x, NS * freq, freq);
  }

  /** Exactly the small frequencies convert every reading whose result fits. */
  lemma ExactIffSmall(freq: u64)
    requires freq > 0
    ensures SmallFreq(freq) <==> forall ticks: u64 ::
              ExactNs(ticks, freq) < W ==> ToNs(ticks, freq) == ExactNs(ticks, freq)
  {
    hide ExactNs, ToNs;
    if SmallFreq(freq) {
      forall ticks: u64 | ExactNs(ticks, freq) < W
        ensures ToNs(ticks, freq) == ExactNs(ticks, freq)
      {
        ToNsExact(ticks, freq);
      }
    } else {
      ToNsInexact(freq);
    }
  }

  /** Later readings never convert to earlier times. */
  lemma ToNsMonotone(s: u64, t: u64, freq: u64)
    requires freq > 0 && SmallFreq(freq) && s <= t && ExactNs(t, freq) < W
    ensures ToNs(s, freq) <= ToNs(t, freq)
  {
    hide ToNs, Div;
    DivMonotone(s * NS, t * NS, freq);
    ToNsExact(s, freq);
    ToNsExact(t, freq);
  }

  /** The user library's clock: seconds and nanoseconds of a reading. */
  function UserClock(ticks: u64, freq: u64): (int, int)
    requires freq > 0
  {
    (Div(ticks, freq), Div(Wrap(Mod(ticks, freq) * NS), freq))
  }

  /** The user clock agrees with the kernel's conversion and is a proper seconds/nanoseconds pair. */
  lemma UserClockAgrees(ticks: u64, freq: u64)
    requires freq > 0 && SmallFreq(freq) && ExactNs(ticks, freq) < W
    ensures
      var (sec, nsec) := UserClock(ticks, freq);
      sec * NS + nsec == ToNs(ticks, freq) && 0 <= nsec < NS
  {
    hide ExactNs, ToNs, Div, Mod;
    ToNsExact(ticks, freq);
    SplitTicks(ticks, freq);
    SmallRemainder(ticks, freq);
    DivBelow(Mod(ticks, freq) * NS, NS, freq);
  }

  lemma SmallRemainder(ticks: u64, freq: u64)
    requires freq > 0 && SmallFreq(freq)
    ensures 0 <= Mod(ticks, freq) * NS < W && Mod(ticks, freq) * NS < NS * freq
    ensures Wrap(Mod(ticks, freq) * NS) == Mod(ticks, freq) * NS
  {
    hide Div, Mod;
    DivMod(ticks, freq);
  }
}
