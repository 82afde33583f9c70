/** The random number generators a machine may own (internal/prng): Frotz's generator in
    full, and the default generator through the few laws its library promises. */
module Random {
  import opened Words
  import opened Text

  const KIND_PCG: byte := 1
  const KIND_FROTZ: byte := 2

  const MULTIPLIER := 0x015a4e35
  const INTERVAL_SEED := 1000
  const FROTZ_STATE_SIZE := 8
  const MAX_RANDOM_STATE := 256

  const TWO_31 := 0x8000_0000
  const TWO_32 := 0x1_0000_0000

  /** The functions of libraries outside the engine. The default generator's state is held
      as the bytes it marshals to. */
  datatype Library = Library(
    pcgSeeded: nat -> seq<byte>,
    pcgDraw: (seq<byte>, nat) -> (seq<byte>, nat),
    pcgReads: seq<byte> -> bool,
    lower: rune -> rune)
  {
    /** Every state the default generator reaches can be read back and fits in a saved
        state, and its draws are in range. */
    ghost predicate Lawful() {
      && (forall seed: nat :: pcgReads(pcgSeeded(seed)) && |pcgSeeded(seed)| <= MAX_RANDOM_STATE)
      && (forall state: seq<byte>, n: nat {:trigger pcgDraw(state, n)} :: pcgReads(state) && 1 <= n < 0x8000 ==>
            var (next, v) := pcgDraw(state, n);
            pcgReads(next) && |next| <= MAX_RANDOM_STATE && 1 <= v <= n)
    }
  }

  datatype Generator =
    | Frotz(a: nat, interval: nat, counter: nat)
    | Pcg(state: seq<byte>)
  {
    predicate Valid(lib: Library) {
      match this
      case Frotz(a, interval, counter) => a < TWO_31 && interval < 0x1_0000 && counter < 0x1_0000
      case Pcg(state) => lib.pcgReads(state) && |state| <= MAX_RANDOM_STATE
    }

    function Kind(): byte { if Frotz? then KIND_FROTZ else KIND_PCG }
  }

  /** One step of Frotz's congruential generator in 32-bit arithmetic, kept to 31 bits. */
  function FrotzNext(a: nat): nat {
    (((a * MULTIPLIER) % TWO_32 + 1) % TWO_32) % TWO_31
  }

  /** The 15 bits Frotz draws from: bits 16 to 30. */
  function Bits16To30(a: nat): nat { (a / 0x1_0000) % 0x8000 }

  function Drawn(lib: Library, g: Generator, n: nat): (r: (Generator, nat))
    requires g.Valid(lib) && lib.Lawful() && 1 <= n < 0x8000
    ensures r.0.Valid(lib) && 1 <= r.1 <= n
  {
    match g
    case Frotz(a, interval, counter) =>
      if interval != 0 then
        var next := (counter + 1) % 0x1_0000;
        (Frotz(a, interval, if next == interval then 0 else next), counter % n + 1)
      else
        (Frotz(FrotzNext(a), interval, counter), Bits16To30(FrotzNext(a)) % n + 1)
    case Pcg(state) => var (next, v) := lib.pcgDraw(state, n); (Pcg(next), v)
  }

  /** One read of the host's random source; it may fail. */
  type Entropy = Option<nat>

  /** Seeding. Frotz takes a zero seed as a request for entropy, falling back to its own
      starting state, and a seed below 1000 as a request to count. */
  function Seeded(lib: Library, g: Generator, seed: nat, entropy: Entropy): (r: Generator)
    requires g.Valid(lib) && lib.Lawful()
    ensures r.Valid(lib) && r.Kind() == g.Kind()
  {
    match g
    case Frotz(a, interval, counter) =>
      if seed == 0 then
        match entropy
        case Some(e) => Frotz(e % TWO_31, 0, 0)
        case None => Frotz(1, 0, counter)
      else if seed < INTERVAL_SEED then Frotz(a, seed, 0)
      else Frotz(seed % TWO_32 % TWO_31, 0, counter)
    case Pcg(_) => Pcg(lib.pcgSeeded(seed))
  }

  /** A new generator of the given kind, unpredictably seeded. */
  function Reseeded(lib: Library, kind: byte, e: nat): (r: Generator)
    requires lib.Lawful()
    ensures r.Valid(lib)
  {
    if kind == KIND_FROTZ then Frotz(e % TWO_31, 0, 0) else Pcg(lib.pcgSeeded(e))
  }

  /** A generator of the given kind before it is seeded (prng.New). */
  function Blank(lib: Library, kind: byte): (r: Generator)
    requires lib.Lawful()
    ensures r.Valid(lib)
  {
    if kind == KIND_FROTZ then Frotz(0, 0, 0) else Pcg(lib.pcgSeeded(0))
  }

  // ----- marshalling -----

  function FrotzBytes(a: nat, interval: nat, counter: nat): seq<byte>
    requires a < TWO_32 && interval < 0x1_0000 && counter < 0x1_0000
  {
    [Hi(a / 0x1_0000), Lo(a / 0x1_0000), Hi(a % 0x1_0000), Lo(a % 0x1_0000),
     Hi(interval), Lo(interval), Hi(counter), Lo(counter)]
  }

  function Marshalled(lib: Library, g: Generator): (bytes: seq<byte>)
    requires g.Valid(lib)
    ensures |bytes| <= MAX_RANDOM_STATE
  {
    match g
    case Frotz(a, interval, counter) => FrotzBytes(a, interval, counter)
    case Pcg(state) => state
  }

  /** Reading a state back; None is the error of an invalid state. */
  function Unmarshalled(lib: Library, kind: byte, bytes: seq<byte>): (r: Option<Generator>)
    requires |bytes| <= MAX_RANDOM_STATE
    ensures r.Some? ==> r.value.Valid(lib) && r.value.Kind() == kind
  {
    if kind == KIND_FROTZ then
      if |bytes| != FROTZ_STATE_SIZE then None
      else
        var a := Join(bytes[0], bytes[1]) as int * 0x1_0000 + Join(bytes[2], bytes[3]) as int;
        Some(Frotz(a % TWO_31, Join(bytes[4], bytes[5]), Join(bytes[6], bytes[7])))
    else if kind == KIND_PCG && lib.pcgReads(bytes) then Some(Pcg(bytes))
    else None
  }

  /** Marshalling a generator and reading it back is the identity, so the restored generator
      draws the same numbers for ever. */
  lemma MarshalInverse(lib: Library, g: Generator)
    requires g.Valid(lib)
    ensures Unmarshalled(lib, g.Kind(), Marshalled(lib, g)) == Some(g)
  {
    match g
    case Frotz(a, interval, counter) =>
      FrotzBytesRead(a, interval, counter);
      SmallRemainder(a);
      var b := FrotzBytes(a, interval, counter);
      assert Marshalled(lib, g) == b;
      assert Unmarshalled(lib, KIND_FROTZ, b) == Some(Frotz(a, interval, counter));
    case Pcg(state) =>
  }

  lemma SmallRemainder(a: nat)
    requires a < TWO_31
    ensures a % TWO_31 == a
  {
  }

  lemma FrotzBytesRead(a: nat, interval: nat, counter: nat)
    requires a < TWO_32 && interval < 0x1_0000 && counter < 0x1_0000
    ensures var b := FrotzBytes(a, interval, counter);
            && |b| == FROTZ_STATE_SIZE
            && Join(b[0], b[1]) as int * 0x1_0000 + Join(b[2], b[3]) as int == a
            && Join(b[4], b[5]) == interval && Join(b[6], b[7]) == counter
  {
    var b := FrotzBytes(a, interval, counter);
    JoinInverse(a / 0x1_0000);
    JoinInverse(a % 0x1_0000);
    JoinInverse(interval);
    JoinInverse(counter);
    assert Join(b[0], b[1]) == a / 0x1_0000 && Join(b[2], b[3]) == a % 0x1_0000;
  }

  // ----- Frotz as an object updated in place -----

  class FrotzSource {
    var a: nat
    var interval: nat
    var counter: nat

    function State(): Generator
      reads this
    {
      Frotz(a, interval, counter)
    }

    predicate Valid()
      reads this
    {
      a < TWO_31 && interval < 0x1_0000 && counter < 0x1_0000
    }

    constructor ()
      ensures Valid() && State() == Frotz(0, 0, 0)
    {
      a, interval, counter := 0, 0, 0;
    }

    method Draw(lib: Library, n: nat) returns (r: nat)
      requires Valid() && lib.Lawful() && 1 <= n < 0x8000
      modifies this
      ensures Valid() && (State(), r) == Drawn(lib, old(State()), n)
    {
      var result;
      if interval != 0 {
        result := counter;
        counter := (counter + 1) % 0x1_0000;
        if counter == interval {
          counter := 0;
        }
      } else {
        a := FrotzNext(a);
        result := Bits16To30(a);
      }
      r := result % n + 1;
    }

    method Reseed(entropy: Entropy) returns (r: Result<()>)
      requires Valid()
      modifies this
      ensures Valid() && r.Ok? == entropy.Some?
      ensures State() == if entropy.Some? then Frotz(entropy.value % TWO_31, 0, 0) else old(State())
    {
      if entropy.None? {
        return Err(NoEntropy);
      }
      a, interval, counter := entropy.value % TWO_31, 0, 0;
      return Ok(());
    }

    method SeedWith(lib: Library, seed: nat, entropy: Entropy)
      requires Valid() && lib.Lawful()
      modifies this
      ensures Valid() && State() == Seeded(lib, old(State()), seed, entropy)
    {
      if seed == 0 {
        var r := Reseed(entropy);
        if r.Err? {
          a, interval := 1, 0;
        }
      } else if seed < INTERVAL_SEED {
        counter, interval := 0, seed;
      } else {
        a, interval := seed % TWO_32 % TWO_31, 0;
      }
    }

    method UnmarshalState(lib: Library, bytes: seq<byte>) returns (ok: bool)
      requires Valid() && |bytes| <= MAX_RANDOM_STATE
      modifies this
      ensures Valid()
      ensures match Unmarshalled(lib, KIND_FROTZ, bytes)
              case Some(g) => ok && State() == g
              case None => !ok && State() == old(State())
    {
      if |bytes| != FROTZ_STATE_SIZE {
        return false;
      }
      a := (Join(bytes[0], bytes[1]) as int * 0x1_0000 + Join(bytes[2], bytes[3]) as int) % TWO_31;
      interval, counter := Join(bytes[4], bytes[5]), Join(bytes[6], bytes[7]);
      return true;
    }
  }

  // ----- the width of the register does not matter -----

  /** Frotz's A after `k` steps from `seed`, with no register width at all. */
  function Unbounded(seed: nat, k: nat): nat {
    if k == 0 then seed else Unbounded(seed, k - 1) * MULTIPLIER + 1
  }

  /** The same in a register of `width` bits. */
  function InRegister(seed: nat, width: nat, k: nat): nat {
    Pow2Positive(width);
    if k == 0 then seed % Pow2(width) else (InRegister(seed, width, k - 1) * MULTIPLIER + 1) % Pow2(width)
  }

  /** The generator after drawing with the given ranges. */
  function AfterDraws(lib: Library, g: Generator, ranges: seq<nat>): (r: Generator)
    requires g.Valid(lib) && lib.Lawful() && forall n :: n in ranges ==> 1 <= n < 0x8000
    ensures r.Valid(lib)
    decreases |ranges|
  {
    if ranges == [] then g
    else
      var front, last := ranges[..|ranges| - 1], ranges[|ranges| - 1];
      assert last in ranges && forall n :: n in front ==> n in ranges;
      Drawn(lib, AfterDraws(lib, g, front), last).0
  }

  // ----- remainders -----

  /** A quotient and remainder are the only ones. */
  lemma Remainder(x: int, n: nat, q: int, r: nat)
    requires n > 0 && x == q * n + r && r < n
    ensures x % n == r && x / n == q
  {
    var d := q - x / n;
    assert d * n == x % n - r by {
      assert x == (x / n) * n + x % n;
      assert d * n == q * n - (x / n) * n;
    }
    Multiples(d, n);
  }

  lemma Multiples(d: int, n: int)
    requires n > 0
    ensures d >= 1 ==> d * n >= n
    ensures d <= -1 ==> d * n <= -n
  {
  }

  lemma Remainder31(x: int, q: int, r: nat)
    requires x == q * TWO_31 + r && r < TWO_31
    ensures x % TWO_31 == r
  {
  }

  /** The low 31 bits of the next state depend only on the low 31 bits of this one. */
  lemma LowBitsNext(x: nat, y: nat)
    requires x % TWO_31 == y % TWO_31
    ensures (x * MULTIPLIER + 1) % TWO_31 == (y * MULTIPLIER + 1) % TWO_31
  {
    var qx, qy, z := x / TWO_31, y / TWO_31, y * MULTIPLIER + 1;
    Remainder31(x * MULTIPLIER + 1, MULTIPLIER * (qx - qy) + z / TWO_31, z % TWO_31);
  }

  lemma LowBitsDrawn(x: nat)
    ensures Bits16To30(x) == Bits16To30(x % TWO_31)
  {
    var q := x / TWO_31;
    assert x == q * TWO_31 + x % TWO_31;
    assert x / 0x1_0000 == q * 0x8000 + (x % TWO_31) / 0x1_0000;
  }

  lemma TwiceReducedSeed(x: nat)
    ensures (x % TWO_32) % TWO_31 == x % TWO_31
  {
    var q, z := x / TWO_32, x % TWO_32;
    Remainder31(x, 2 * q + z / TWO_31, z % TWO_31);
  }

  lemma TwiceReduced(x: nat)
    ensures ((x % TWO_32 + 1) % TWO_32) % TWO_31 == (x + 1) % TWO_31
  {
    var q1, y := x / TWO_32, x % TWO_32 + 1;
    var q2, z := y / TWO_32, y % TWO_32;
    Remainder31(x + 1, 2 * (q1 + q2) + z / TWO_31, z % TWO_31);
  }

  lemma FrotzNextLow(a: nat)
    ensures FrotzNext(a) == (a * MULTIPLIER + 1) % TWO_31
  {
    TwiceReduced(a * MULTIPLIER);
  }

  lemma DrawnByFrotz(lib: Library, g: Generator, n: nat)
    requires g.Frotz? && g.Valid(lib) && lib.Lawful() && g.interval == 0 && 1 <= n < 0x8000
    ensures var (next, v) := Drawn(lib, g, n);
            var a := (g.a * MULTIPLIER + 1) % TWO_31;
            next == Frotz(a, 0, g.counter) && v == Bits16To30(a) % n + 1
  {
    FrotzNextLow(g.a);
    hide FrotzNext, Bits16To30;
  }

  /** After any draws from a seed of at least 1000, the 31-bit state is the unbounded one
      reduced to 31 bits. */
  lemma {:induction false} FrotzStateIsUnbounded(lib: Library, g: Generator, seed: nat, ranges: seq<nat>)
    requires g.Frotz? && g.Valid(lib) && lib.Lawful() && INTERVAL_SEED <= seed
    requires forall n :: n in ranges ==> 1 <= n < 0x8000
    ensures var after := AfterDraws(lib, Seeded(lib, g, seed, None), ranges);
            after.Frotz? && after.interval == 0 && after.a == Unbounded(seed, |ranges|) % TWO_31
    decreases |ranges|
  {
    hide FrotzNext, Drawn, Bits16To30;
    if ranges == [] {
      TwiceReducedSeed(seed);
    } else {
      var front, last := ranges[..|ranges| - 1], ranges[|ranges| - 1];
      assert forall n :: n in front ==> n in ranges;
      FrotzStateIsUnbounded(lib, g, seed, front);
      var before := AfterDraws(lib, Seeded(lib, g, seed, None), front);
      assert last in ranges;
      DrawnByFrotz(lib, before, last);
      LowBitsNext(before.a, Unbounded(seed, |front|));
    }
  }

  /** So every draw gives the result the unbounded recurrence gives. */
  lemma FrotzDrawIsUnbounded(lib: Library, g: Generator, seed: nat, ranges: seq<nat>, n: nat)
    requires g.Frotz? && g.Valid(lib) && lib.Lawful() && INTERVAL_SEED <= seed
    requires 1 <= n < 0x8000 && forall r :: r in ranges ==> 1 <= r < 0x8000
    ensures Drawn(lib, AfterDraws(lib, Seeded(lib, g, seed, None), ranges), n).1 ==
            Bits16To30(Unbounded(seed, |ranges| + 1)) % n + 1
  {
    FrotzStateIsUnbounded(lib, g, seed, ranges);
    var after := AfterDraws(lib, Seeded(lib, g, seed, None), ranges);
    DrawnByFrotz(lib, after, n);
    DrawnFromUnbounded(after.a, seed, |ranges|);
    hide *;
  }

  lemma DrawnFromUnbounded(a: nat, seed: nat, k: nat)
    requires a == Unbounded(seed, k) % TWO_31
    ensures Bits16To30((a * MULTIPLIER + 1) % TWO_31) == Bits16To30(Unbounded(seed, k + 1))
  {
    hide Bits16To30;
    Remainder31(a, 0, a);
    LowBitsNext(a, Unbounded(seed, k));
    LowBitsDrawn(Unbounded(seed, k + 1));
  }

  lemma Pow2Multiple(width: nat)
    requires width >= 31
    ensures Pow2(width) == TWO_31 * Pow2(width - 31)
    decreases width
  {
    if width == 31 {
      assert Pow2(4) == 16 && Pow2(8) == 16 * Pow2(4) && Pow2(16) == 256 * Pow2(8);
      assert Pow2(20) == 16 * Pow2(16) && Pow2(24) == 16 * Pow2(20) && Pow2(28) == 16 * Pow2(24) && Pow2(31) == 8 * Pow2(28);
    } else {
      Pow2Multiple(width - 1);
    }
  }

  lemma ReducedLow(x: nat, width: nat)
    requires width >= 31
    ensures Pow2(width) > 0 && (x % Pow2(width)) % TWO_31 == x % TWO_31
  {
    Pow2Positive(width);
    Pow2Multiple(width);
    var p, q, r := Pow2(width - 31), x / Pow2(width), x % Pow2(width);
    QuotientTimes(x, Pow2(width));
    Associative(q, TWO_31, p);
    hide Pow2;
    Remainder31(x, q * p + r / TWO_31, r % TWO_31);
  }

  lemma QuotientTimes(x: nat, n: nat)
    requires n > 0
    ensures x == (x / n) * n + x % n && x % n >= 0
  {
  }

  lemma Associative(a: int, b: int, c: int)
    ensures a * (b * c) == b * (a * c)
  {
  }

  /** In a register of any width of at least 31 bits the low 31 bits, and so every draw, are
      the same. */
  lemma {:induction false} RegisterWidthDoesNotMatter(seed: nat, width: nat, k: nat)
    requires width >= 31
    ensures InRegister(seed, width, k) % TWO_31 == Unbounded(seed, k) % TWO_31
    ensures Bits16To30(InRegister(seed, width, k)) == Bits16To30(Unbounded(seed, k))
    decreases k
  {
    if k == 0 {
      ReducedLow(seed, width);
    } else {
      RegisterWidthDoesNotMatter(seed, width, k - 1);
      LowBitsNext(InRegister(seed, width, k - 1), Unbounded(seed, k - 1));
      ReducedLow(InRegister(seed, width, k - 1) * MULTIPLIER + 1, width);
    }
    LowBitsDrawn(InRegister(seed, width, k));
    LowBitsDrawn(Unbounded(seed, k));
  }

  /** Where the counter of counting mode stands after `k` draws. */
  function Counter(k: nat, seed: nat): nat
    requires seed > 0
  {
    k % seed
  }

  /** In counting mode the k-th draw is k modulo the seed, whatever was drawn before. */
  lemma {:induction false} CountingMode(lib: Library, g: Generator, seed: nat, ranges: seq<nat>, n: nat)
    requires g.Frotz? && g.Valid(lib) && lib.Lawful() && 1 <= seed < INTERVAL_SEED
    requires 1 <= n < 0x8000 && forall r :: r in ranges ==> 1 <= r < 0x8000
    ensures var after := AfterDraws(lib, Seeded(lib, g, seed, None), ranges);
            && after == Frotz(g.a, seed, Counter(|ranges|, seed))
            && Drawn(lib, after, n).1 == Counter(|ranges|, seed) % n + 1
    decreases |ranges|
  {
    if ranges == [] {
      CountedDraw(lib, Frotz(g.a, seed, 0), n);
    } else {
      var front, last := ranges[..|ranges| - 1], ranges[|ranges| - 1];
      assert last in ranges && forall r :: r in front ==> r in ranges;
      CountingMode(lib, g, seed, front, last);
      var before, k: nat := AfterDraws(lib, Seeded(lib, g, seed, None), front), |front|;
      hide Seeded, Drawn, Counter;
      NextCounter(k, seed);
      CountedDraw(lib, before, last);
      CountedDraw(lib, Frotz(g.a, seed, Counter(k + 1, seed)), n);
    }
  }

  lemma NextCounter(k: nat, seed: nat)
    requires seed > 0
    ensures Counter(k, seed) < seed && Counter(k + 1, seed) < seed
    ensures Counter(k + 1, seed) == if Counter(k, seed) + 1 == seed then 0 else Counter(k, seed) + 1
  {
    NextModulo(k, seed);
  }

  /** One draw in counting mode. */
  lemma CountedDraw(lib: Library, g: Generator, n: nat)
    requires g.Frotz? && g.Valid(lib) && lib.Lawful() && g.interval != 0 && g.counter < g.interval && 1 <= n < 0x8000
    ensures Drawn(lib, g, n) ==
            (Frotz(g.a, g.interval, if g.counter + 1 == g.interval then 0 else g.counter + 1), g.counter % n + 1)
  {
  }

  lemma NextModulo(k: nat, s: nat)
    requires s > 0
    ensures (k + 1) % s == if k % s + 1 == s then 0 else k % s + 1
  {
    var q := k / s;
    assert k == q * s + k % s;
    if k % s + 1 == s {
      assert k + 1 == (q + 1) * s + 0;
      Remainder(k + 1, s, q + 1, 0);
    } else {
      Remainder(k + 1, s, q, k % s + 1);
    }
  }

  /** A draw from Frotz's generator in plain arithmetic: in counting mode the counter and then
      the next, back to zero at the interval; otherwise bits 16 to 30 of 22695477 a + 1. */
  lemma FrotzDraws(lib: Library, a: nat, interval: nat, counter: nat, n: nat)
    requires Frotz(a, interval, counter).Valid(lib) && lib.Lawful() && 1 <= n < 0x8000
    ensures var next := (22695477 * a + 1) % 2147483648;
            Drawn(lib, Frotz(a, interval, counter), n) ==
            if interval == 0 then (Frotz(next, 0, counter), next / 65536 % 32768 % n + 1)
            else (Frotz(a, interval, if (counter + 1) % 65536 == interval then 0 else (counter + 1) % 65536), counter % n + 1)
  {
    FrotzNextLow(a);
    assert a * MULTIPLIER == 22695477 * a;
    hide FrotzNext;
  }

  /** Seeding it: 0 asks for the host's randomness, or 1 if there is none; 1 to 999 for
      counting up to that; and any other is the state to start from, cut to 31 bits. */
  lemma FrotzSeeds(lib: Library, a: nat, interval: nat, counter: nat, seed: nat, entropy: Entropy)
    requires Frotz(a, interval, counter).Valid(lib) && lib.Lawful()
    ensures Seeded(lib, Frotz(a, interval, counter), seed, entropy) ==
            if seed == 0 then if entropy.Some? then Frotz(entropy.value % 2147483648, 0, 0) else Frotz(1, 0, counter)
            else if seed < 1000 then Frotz(a, seed, 0)
            else Frotz(seed % 2147483648, 0, counter)
  {
    assert seed % TWO_32 % TWO_31 == seed % TWO_31;
  }
}
