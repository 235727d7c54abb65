/**
 * The seeded Mulberry32 generator: a 32-bit accumulator that every draw
 * advances by a fixed odd constant and then scrambles with xor, unsigned
 * shifts and 32-bit multiplication.
 */
module Rng {

  const Modulus: int := 0x1_0000_0000
  /** The odd constant added to the accumulator on every draw. */
  const Increment: int := 0x6D2B79F5

  type uint32 = x: int | 0 <= x < 0x1_0000_0000

  /** ToUint32 of an integral number: the value modulo 2^32 (never negative). */
  function Wrap(x: int): uint32 {
    x % Modulus
  }


  /**
   * The xor, shift and multiply rounds on a 32-bit word. bv32 multiplication
   * and addition keep the low 32 bits, as Math.imul and the int32 coercion of
   * a sum do; >> on bv32 is the unsigned shift >>>.
   */
  function Mix(t0: bv32): bv32 {
    var t1 := (t0 ^ (t0 >> 15)) * (t0 | 1);
    var t2 := t1 ^ (t1 + (t1 ^ (t1 >> 7)) * (t1 | 61));
    t2 ^ (t2 >> 14)
  }

  /** The unsigned numerator a draw returns for the freshly incremented accumulator. */
  function Scramble(state: uint32): uint32 {
    Mix(state as bv32) as int
  }

  /**
   * The numerator over 2^32. The division is exact in binary64, because the
   * numerator has at most 32 significant bits, so a real models it exactly.
   */
  function Unit(n: uint32): (x: real)
    ensures 0.0 <= x < 1.0
    ensures x * 4294967296.0 == n as real
  {
    n as real / 4294967296.0
  }

  /** The accumulator after k draws from seed. */
  function StateAfter(seed: uint32, k: nat): uint32 {
    if k == 0 then seed else Wrap(StateAfter(seed, k - 1) + Increment)
  }

  /**
   * The outputs of the first k draws from seed, when each draw returns out of
   * the freshly advanced accumulator. Mulberry32 is Stream(Scramble, seed, k);
   * the lemmas below hold of every output function.
   */
  function Stream(out: uint32 -> uint32, seed: uint32, k: nat): (s: seq<uint32>)
    ensures |s| == k
  {
    if k == 0 then [] else Stream(out, seed, k - 1) + [out(StateAfter(seed, k))]
  }

  lemma WrapAdd(x: int, y: int)
    ensures Wrap(Wrap(x) + y) == Wrap(x + y)
  {
    var q := x / Modulus;
    assert x == q * Modulus + Wrap(x);
    assert Wrap(x) + y == (x + y) - q * Modulus;
  }

  /** Closed form: k draws add k times the increment, modulo 2^32. */
  lemma {:induction false} StateAfterClosedForm(seed: uint32, k: nat)
    ensures StateAfter(seed, k) == Wrap(seed + k * Increment)
  {
    if k > 0 {
      StateAfterClosedForm(seed, k - 1);
      WrapAdd(seed + (k - 1) * Increment, Increment);
    }
  }

  /** The k-th draw (1-based) returns out of seed + k * Increment, modulo 2^32. */
  lemma {:induction false} StreamClosedForm(out: uint32 -> uint32, seed: uint32, k: nat, i: nat)
    requires i < k
    ensures Stream(out, seed, k)[i] == out(Wrap(seed + (i + 1) * Increment))
  {
    if i < k - 1 {
      StreamClosedForm(out, seed, k - 1, i);
    } else {
      StateAfterClosedForm(seed, k);
    }
  }

  /** A longer stream extends a shorter one: later draws never change earlier ones. */
  lemma {:induction false} StreamPrefix(out: uint32 -> uint32, seed: uint32, k: nat, m: nat)
    requires k <= m
    ensures Stream(out, seed, k) == Stream(out, seed, m)[..k]
  {
    if k < m {
      StreamPrefix(out, seed, k, m - 1);
      assert Stream(out, seed, m)[..m - 1] == Stream(out, seed, m - 1);
    }
  }

  /** Integer seeds congruent modulo 2^32 give the same stream of any length. */
  lemma CongruentSeeds(a: int, b: int, k: nat)
    requires (a - b) % Modulus == 0
    ensures Wrap(a) == Wrap(b)
    ensures Stream(Scramble, Wrap(a), k) == Stream(Scramble, Wrap(b), k)
  {
    WrapAdd(b, a - b);
    assert Wrap(a - b) == 0;
    WrapAdd(a - b, b);
  }

  /**
   * The closure returned by mulberry32: its captured accumulator is the state.
   * The ghost fields remember the seed and how many draws were made, so that
   * the contract of every draw can name the stream it belongs to.
   */
  class Mulberry32 {
    var state: uint32
    ghost var seed: uint32
    ghost var draws: nat

    ghost predicate Valid()
      reads this
    {
      state == StateAfter(seed, draws)
    }

    constructor (seed: int)
      ensures Valid() && this.seed == Wrap(seed) && draws == 0
    {
      state := Wrap(seed);
      this.seed := Wrap(seed);
      draws := 0;
    }

    /**
     * One call of the closure: advance the accumulator, then scramble it. The
     * closure returns Unit of this numerator. The k-th call returns the
     * scrambled seed + k * Increment, modulo 2^32.
     */
    method Draw() returns (n: uint32)
      requires Valid()
      modifies this
      ensures Valid() && seed == old(seed) && draws == old(draws) + 1
      ensures state == Wrap(old(state) + Increment)
      ensures n == Scramble(state)
      ensures n == Scramble(Wrap(seed + draws * Increment))
    {
      state := Wrap(state + Increment);
      draws := draws + 1;
      n := Scramble(state);
      StateAfterClosedForm(seed, draws);
    }
  }

  /**
   * charCodeAt(0) of one character of the text: the first UTF-16 code unit.
   * A character beyond U+FFFF is two code units, and only its high surrogate
   * is read.
   */
  function CodeUnit(ch: char): (u: int)
    ensures 0 <= u < 0x10000
    ensures ch as int < 0x10000 ==> u == ch as int
    ensures ch as int >= 0x10000 ==> 0xD800 <= u < 0xDC00 && (u - 0xD800) * 0x400 + 0x10000 <= ch as int < (u - 0xD800 + 1) * 0x400 + 0x10000
  {
    if ch as int < 0x10000 then ch as int else 0xD800 + (ch as int - 0x10000) / 0x400
  }

  /** The seed a text yields: fold acc * 31 + code unit, coerced to 32 bits each step. */
  function SeedFold(s: string): uint32 {
    if s == [] then 0 else Wrap(SeedFold(s[..|s| - 1]) * 31 + CodeUnit(s[|s| - 1]))
  }

  /** The same fold without the intermediate coercions. */
  function Polynomial(s: string): int {
    if s == [] then 0 else Polynomial(s[..|s| - 1]) * 31 + CodeUnit(s[|s| - 1])
  }

  lemma WrapMulAdd(x: int, m: int, y: int)
    ensures Wrap(Wrap(x) * m + y) == Wrap(x * m + y)
  {
    var q := x / Modulus;
    assert x == q * Modulus + Wrap(x);
    assert Wrap(x) * m + y == (x * m + y) - (q * m) * Modulus;
  }

  /** Coercing after every character is the same as coercing once at the end. */
  lemma {:induction false} SeedFoldIsPolynomial(s: string)
    ensures SeedFold(s) == Wrap(Polynomial(s))
  {
    if s != [] {
      SeedFoldIsPolynomial(s[..|s| - 1]);
      WrapMulAdd(Polynomial(s[..|s| - 1]), 31, CodeUnit(s[|s| - 1]));
    }
  }

  /** The seed loop of makeArray. */
  method SeedOfText(s: string) returns (seed: uint32)
    ensures seed == Wrap(Polynomial(s))
  {
    seed := 0;
    for i := 0 to |s|
      invariant seed == SeedFold(s[..i])
    {
      assert s[..i + 1][..i] == s[..i];
      seed := Wrap(seed * 31 + CodeUnit(s[i]));
    }
    assert s[..|s|] == s;
    SeedFoldIsPolynomial(s);
  }

  lemma SeedOfAbc()
    ensures SeedFold("abc") == 96354
  {
    assert "abc"[..2] == "ab" && "ab"[..1] == "a" && "a"[..0] == "";
    assert SeedFold("a") == 97;
    assert SeedFold("ab") == 3105;
  }

  /** A character beyond U+FFFF contributes its high surrogate: U+1F600 folds 0xD83D, not 0x1F600. */
  lemma SeedOfGrinningFace()
    ensures SeedFold("\U{1F600}") == 0xD83D && SeedFold("\U{1F600}") != 0x1F600
  {
  }
}
