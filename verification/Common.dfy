/** Shared small types. */
module Common {
  datatype Option<T> = None | Some(value: T)

  /** Length of count blocks of the given size. */
  function Blocks(count: nat, size: nat): nat {
    if count == 0 then 0 else Blocks(count - 1, size) + size
  }

  lemma {:induction false} BlocksIsProduct(count: nat, size: nat)
    ensures Blocks(count, size) == count * size
  {
    if count > 0 {
      BlocksIsProduct(count - 1, size);
      assert count * size == (count - 1) * size + size;
    }
  }

  lemma {:induction false} BlockFits(b: nat, count: nat, size: nat)
    requires b < count
    ensures Blocks(b, size) <= Blocks(b + 1, size) <= Blocks(count, size)
    decreases count
  {
    if b + 1 < count {
      BlockFits(b, count - 1, size);
    }
  }

  function Pow2(k: nat): (n: nat)
    ensures n >= 1
  {
    if k == 0 then 1 else 2 * Pow2(k - 1)
  }
}
