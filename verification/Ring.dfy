/** Places in a ring of `size` descriptors. */
module Ring {
  function Inc(size: nat, i: nat): nat {
    if i + 1 >= size then 0 else i + 1
  }

  function Dec(size: nat, i: nat): nat
    requires size > 0
  {
    if i == 0 then size - 1 else i - 1
  }

  /** The place `k` after `head`. */
  function Pos(size: nat, head: nat, k: nat): (i: nat)
    requires head < size && k <= size
    ensures i < size
  {
    if head + k < size then head + k else head + k - size
  }
}
