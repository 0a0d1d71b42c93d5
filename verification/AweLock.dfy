// The reader/writer protection of an AWE_FS_Alloc file: two counters behind a
// spin lock, taken by try-acquire only.

module AweLock {

  const LONG_MAX: int := 0x7FFF_FFFF

  datatype Counters = Counters(readers: int, writers: int)

  // The state change of AWE_FS_AllocTryAcquireProtection; unchanged counters mean busy.
  predicate Busy(c: Counters, forWrite: bool, ownsReadLock: bool) {
    if forWrite then
      c.writers >= 1 || c.readers >= (if ownsReadLock then 2 else 1)
    else
      c.writers >= 1 || c.readers >= LONG_MAX
  }

  function Acquired(c: Counters, forWrite: bool): Counters {
    if forWrite then c.(writers := c.writers + 1) else c.(readers := c.readers + 1)
  }

  function Released(c: Counters, forRead: bool, forWrite: bool): Counters {
    Counters(if forRead then c.readers - 1 else c.readers,
             if forWrite then c.writers - 1 else c.writers)
  }
}
