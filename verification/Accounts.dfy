/** Account removals, as they arrive on the stream, travel in batches and wait in the store's queue. */
module Accounts {
  datatype Removal = Removal(did: string, cursor: nat)
}
