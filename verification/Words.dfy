/** Machine words of 64 bits; sums of them wrap around. */
module Words {
  const WORD_LIMIT := 0x1_0000_0000_0000_0000

  type Word = x: int | 0 <= x < WORD_LIMIT

  function Exp(k: nat): nat {
    if k == 0 then 1 else 2 * Exp(k - 1)
  }

  function Wrap(x: int): Word {
    x % WORD_LIMIT
  }

  lemma NoWrap(x: int)
    requires 0 <= x < WORD_LIMIT
    ensures Wrap(x) == x
  {
  }

  /** The signed number that a word stands for. */
  function Signed(w: Word): int {
    if w < WORD_LIMIT / 2 then w else w - WORD_LIMIT
  }

  predicate InRange(x: int) {
    -(WORD_LIMIT / 2) <= x < WORD_LIMIT / 2
  }

  /** A signed number in range is read back from its word. */
  lemma SignedWrap(x: int)
    requires InRange(x)
    ensures Signed(Wrap(x)) == x
  {
    if x < 0 {
      NoWrap(x + WORD_LIMIT);
      assert Wrap(x) == Wrap(x + WORD_LIMIT);
    } else {
      NoWrap(x);
    }
  }
}
