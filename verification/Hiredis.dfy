/** What the files of deps/hiredis share. */
module Hiredis {

  /** An address; nodes live in an explicit memory, so a freed address can no longer be read. */
  type Ptr = nat

  const NULL: Ptr := 0

  /** A callback; `fn` is 0 when the command was given none. */
  datatype Callback = Callback(fn: nat, privdata: nat)
}
