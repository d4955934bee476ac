/** Types shared by the whole model. */
module Common {

  datatype Option<+T> = None | Some(value: T)

  /** A 10-byte versionstamp, as the number its big-endian bytes spell. */
  type Version = nat

  /** A 32-byte content hash, as the number its big-endian bytes spell. */
  type Hash = nat

  type PageNo = nat

  type Bytes = seq<bv8>

  /** Ten 0xff bytes. No commit is ever stamped with it. */
  const MAX_VERSION: Version := 0xff_ff_ff_ff_ff_ff_ff_ff_ff_ff

  /** Thirty-two 0xff bytes: the exclusive end of every scan over hashes. */
  const MAX_HASH: Hash :=
    0xffffffffffffffff_ffffffffffffffff_ffffffffffffffff_ffffffffffffffff

  function Max(a: nat, b: nat): nat {
    if a < b then b else a
  }

  function Min(a: nat, b: nat): nat {
    if a < b then a else b
  }
}
