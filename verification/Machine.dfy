/** 64-bit machine words. */
module Machine {
  const TWO63: int := 0x8000_0000_0000_0000
  const TWO64: int := 0x1_0000_0000_0000_0000

  type Word = n: nat | n < TWO64
}
