/** The `defaultdict(int)` both machines use as memory: a map from integer
    addresses to integers in which an address never written reads as 0. */
module SparseMemory {

  type Memory = map<int, int>

  /** Reading a cell; a missing key reads 0 (the Python side effect of
      inserting the key on a read is not modelled). */
  function Read(m: Memory, addr: int): (v: int)
    ensures addr !in m ==> v == 0
  {
    if addr in m then m[addr] else 0
  }

  /** Storing `v` at `addr` changes the value read at `addr` and at no other address. */
  lemma ReadAfterWrite(m: Memory, addr: int, v: int, other: int)
    ensures Read(m[addr := v], addr) == v
    ensures other != addr ==> Read(m[addr := v], other) == Read(m, other)
  {
  }
}
