/** A `u32` modelled as its 32 bits, least significant first, so that `&`,
    `|`, `~`, `<<` and `>>` become pointwise statements about bit
    positions. */
module Words {

  const WORD_BITS := 32

  /** A `u32`: bit `i` is the bit of weight 2^i. */
  type Word = w: seq<bool> | |w| == WORD_BITS witness seq(WORD_BITS, i => false)

  /** `0u`. */
  function Zero(): (r: Word)
    ensures forall i :: 0 <= i < WORD_BITS ==> !r[i]
  {
    seq(WORD_BITS, i => false)
  }

  /** `1u`. */
  function One(): (r: Word)
    ensures r[0] && forall i :: 0 < i < WORD_BITS ==> !r[i]
  {
    seq(WORD_BITS, i => i == 0)
  }

  function And(a: Word, b: Word): (r: Word)
    ensures forall i :: 0 <= i < WORD_BITS ==> (r[i] <==> a[i] && b[i])
  {
    seq(WORD_BITS, i requires 0 <= i < WORD_BITS => a[i] && b[i])
  }

  function Or(a: Word, b: Word): (r: Word)
    ensures forall i :: 0 <= i < WORD_BITS ==> (r[i] <==> a[i] || b[i])
  {
    seq(WORD_BITS, i requires 0 <= i < WORD_BITS => a[i] || b[i])
  }

  function Not(a: Word): (r: Word)
    ensures forall i :: 0 <= i < WORD_BITS ==> (r[i] <==> !a[i])
  {
    seq(WORD_BITS, i requires 0 <= i < WORD_BITS => !a[i])
  }

  /** `a << n`: bits pushed past the top are lost, zeros come in below. */
  function Shl(a: Word, n: nat): (r: Word)
    ensures forall i :: 0 <= i < WORD_BITS ==> (r[i] <==> n <= i && a[i - n])
  {
    seq(WORD_BITS, i requires 0 <= i < WORD_BITS => n <= i && a[i - n])
  }

  /** `a >> n` on an unsigned word: zeros come in from the top. */
  function Shr(a: Word, n: nat): (r: Word)
    ensures forall i :: 0 <= i < WORD_BITS ==> (r[i] <==> i + n < WORD_BITS && a[i + n])
  {
    seq(WORD_BITS, i requires 0 <= i < WORD_BITS => i + n < WORD_BITS && a[i + n])
  }

  /** No bit is set in both words. */
  predicate Disjoint(a: Word, b: Word) {
    forall i :: 0 <= i < WORD_BITS ==> !(a[i] && b[i])
  }

  /** `a != 0`: some bit is set. */
  predicate NonZero(a: Word) {
    exists i :: 0 <= i < WORD_BITS && a[i]
  }

  /** Every bit of `a` lies in `region`. */
  predicate Within(a: Word, region: Word) {
    forall i :: 0 <= i < WORD_BITS ==> a[i] ==> region[i]
  }

  /** Two words with the same bits are the same word. */
  lemma WordsEqual(a: Word, b: Word)
    requires forall i :: 0 <= i < WORD_BITS ==> a[i] == b[i]
    ensures a == b
  {
  }
}
