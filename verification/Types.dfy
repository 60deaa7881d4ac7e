/** Shapes shared by every part of the archive. */
module Types {
  datatype Option<+T> = None | Some(value: T)

  type Bytes = string
  type Hash = string

  /** Blobs by hash. */
  type Store = map<Hash, Bytes>

  /** A blob by hash; `""` is the absent reference and reads as no bytes. */
  function Load(store: Store, hash: Hash): Option<Bytes> {
    if hash == "" then Some([]) else if hash in store then Some(store[hash]) else None
  }
}
