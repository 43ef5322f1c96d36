/** Memory as the allocators see it. */
module Words {

  /** Memory by word address. Words never written read as zero, as in a fresh anonymous map. */
  type Memory = map<int, int>

  function Read(m: Memory, a: int): int {
    if a in m then m[a] else 0
  }
}
