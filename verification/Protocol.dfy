// Limits of the wire protocol.
module Protocol {
  const MAX_INV: int := 2_000
  const MAX_LOCATOR: int := 64
  const MAX_ADDRS: int := 1_000
  const BLOCKS_PER_ROUND: int := 500
}
