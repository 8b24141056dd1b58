/** Unsigned machine counters that wrap around. */
module Counters {
  import opened Powers

  const WORD: int := 0x1_0000_0000

  /** What an unsigned counter of the given width holds after counting to n. */
  function Wrapped(n: nat, width: int): (r: nat)
    requires width > 0
    ensures r < width
  {
    if n < width then n else Wrapped(n - width, width)
  }

  lemma {:induction false} WrappedIsModulo(n: nat, width: int)
    requires width > 0
    ensures Wrapped(n, width) == n % width
  {
    if n < width {
      DivModUnique(n, width, 0, n);
    } else {
      WrappedIsModulo(n - width, width);
      DivModUnique(n, width, (n - width) / width + 1, (n - width) % width);
    }
  }

  lemma {:induction false} WrapStep(total: nat, more: nat, width: int)
    requires width > 0
    ensures Wrapped(Wrapped(total, width) + more, width) == Wrapped(total + more, width)
  {
    if total >= width {
      WrapStep(total - width, more, width);
    }
  }
}
