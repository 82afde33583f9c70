/** Bytes, 16-bit words and the error classes shared by every module.

    Numbers are unbounded integers restricted by subset types, so each place where the
    engine's fixed-width arithmetic wraps or truncates is written out with `%`. */
module Words {
  type byte = x: int | 0 <= x < 0x100
  type word = x: int | 0 <= x < 0x1_0000

  /** The classes an error of running a story can be sorted into (errors.go). */
  datatype Fault =
    | InvalidOpcode
    | MemoryAccess
    | ExecutionLimit
    | InvalidText
    | ExecutionFault
    | NoEntropy
    | HostMistake

  /** The classes an error of a whole call can be sorted into: only loading a story and
      restoring a state have errors of their own. */
  datatype Error = InvalidStory | InvalidState | Running(fault: Fault)

  datatype Option<+T> = None | Some(value: T)

  /** A computation that only reads: a value or an error. */
  datatype Result<+T> = Ok(value: T) | Err(error: Fault) {
    predicate IsFailure() { Err? }

    // Total, so that a step that cannot fail may still be written with `:-`.
    function PropagateFailure<U>(): Result<U> {
      if Err? then Err(error) else Err(HostMistake)
    }

    function Extract(): T
      requires Ok?
    {
      value
    }
  }

  /** A computation that changes a state. The state reached is kept on failure too, because
      an instruction that fails half-way leaves behind what it had already changed. */
  datatype Act<+S, +T> = Done(state: S, value: T) | Fail(state: S, error: Fault) {
    predicate IsFailure() { Fail? }

    function PropagateFailure<U>(): Act<S, U> {
      if Fail? then Fail(state, error) else Fail(state, HostMistake)
    }

    function Extract(): (S, T)
      requires Done?
    {
      (state, value)
    }
  }

  /** What a call that only runs the story answers. */
  function Answer<T>(r: Result<T>): Reply<T> {
    match r
    case Ok(v) => Accepted(v)
    case Err(e) => Rejected(Running(e))
  }

  /** Runs a read in a state it does not change. It is also how a method that changes `s` in
      place and returns `r` is compared with an `Act`. */
  function Lift<S, T>(s: S, r: Result<T>): Act<S, T> {
    match r
    case Ok(v) => Done(s, v)
    case Err(e) => Fail(s, e)
  }

  /** What a whole call answers. */
  datatype Reply<+T> = Accepted(value: T) | Rejected(error: Error)

  // ----- 16-bit words (value.go) -----

  function Signed(v: word): int {
    if v < 0x8000 then v else v - 0x1_0000
  }

  function Unsigned(i: int): word {
    i % 0x1_0000
  }

  function Pow2(n: nat): nat {
    if n == 0 then 1 else 2 * Pow2(n - 1)
  }

  lemma {:induction false} Pow2Positive(n: nat)
    ensures Pow2(n) > 0
  {
    if n > 0 {
      Pow2Positive(n - 1);
    }
  }

  /** The low `bits` bits of `v` as a two's complement number: shift the sign bit of the
      field up to bit 15, then shift back down with an arithmetic (flooring) shift. */
  function SignExtend(v: word, bits: nat): int
    requires 1 <= bits <= 16
  {
    Pow2Positive(16 - bits);
    Signed((v * Pow2(16 - bits)) % 0x1_0000) / Pow2(16 - bits)
  }

  /** The 14-bit case, which is the one instructions use: bits 14 and 15 are ignored and
      bit 13 is the sign. */
  lemma SignExtend14(v: word)
    ensures var field := v % 0x4000;
            SignExtend(v, 14) == if field < 0x2000 then field else field - 0x4000
  {
    assert Pow2(2) == 4;
    assert (v * 4) % 0x1_0000 == (v % 0x4000) * 4;
  }

  function Hi(v: word): byte { v / 0x100 }

  function Lo(v: word): byte { v % 0x100 }

  function Join(hi: byte, lo: byte): word { hi * 0x100 + lo }

  lemma JoinInverse(w: word)
    ensures Join(Hi(w), Lo(w)) == w
  {
  }

  lemma SplitInverse(hi: byte, lo: byte)
    ensures Hi(Join(hi, lo)) == hi && Lo(Join(hi, lo)) == lo
  {
  }

  // ----- bitwise operations -----

  /** Bitwise AND, bit by bit from the bottom. */
  function BitAnd(a: nat, b: nat): (r: nat)
    ensures r <= a && r <= b
  {
    if a == 0 || b == 0 then 0
    else (if a % 2 == 1 && b % 2 == 1 then 1 else 0) + 2 * BitAnd(a / 2, b / 2)
  }

  /** Bitwise OR of two numbers of `n` bits. */
  function BitOrN(a: nat, b: nat, n: nat): (r: nat)
    requires a < Pow2(n) && b < Pow2(n)
    ensures a <= r < Pow2(n) && b <= r
  {
    if n == 0 then 0
    else (if a % 2 == 1 || b % 2 == 1 then 1 else 0) + 2 * BitOrN(a / 2, b / 2, n - 1)
  }

  function BitOr(a: word, b: word): word {
    assert Pow2(4) == 16 && Pow2(8) == 16 * Pow2(4) && Pow2(12) == 16 * Pow2(8) && Pow2(16) == 16 * Pow2(12);
    BitOrN(a, b, 16)
  }

  function BitNot(a: word): word {
    0xffff - a
  }

  /** Bit `k` of `v`, counting from the bottom. */
  predicate Bit(v: nat, k: nat) {
    if k == 0 then v % 2 == 1 else Bit(v / 2, k - 1)
  }

  /** `v` with bit `k` turned on or off, and every other bit as it was. */
  function WithBit(v: nat, k: nat, on: bool): (r: nat)
    ensures Bit(r, k) == on
    ensures forall other: nat :: other != k ==> Bit(r, other) == Bit(v, other)
  {
    if k == 0 then
      var r := v / 2 * 2 + if on then 1 else 0;
      assert r / 2 == v / 2;
      r
    else
      var rest := WithBit(v / 2, k - 1, on);
      var r := v % 2 + 2 * rest;
      assert r / 2 == rest && r % 2 == v % 2;
      r
  }

  lemma {:induction false} WithBitFits(v: nat, k: nat, on: bool, n: nat)
    requires v < Pow2(n) && k < n
    ensures WithBit(v, k, on) < Pow2(n)
  {
    if k > 0 {
      WithBitFits(v / 2, k - 1, on, n - 1);
    }
  }
}
