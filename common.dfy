/** Shared vocabulary: bytes, fixed-width digests, and the success/error wrappers
    that stand for Rust's `Option` and `anyhow::Result`. */
module Common {

  /** An unsigned 8-bit value (Rust `u8`). */
  newtype byte = x: int | 0 <= x < 256

  /** Width in bytes of a Keccak-256 digest and of a blob commitment. */
  const DigestSize: nat := 32

  /** A 32-byte digest. */
  type Digest = s: seq<byte> | |s| == DigestSize witness seq(DigestSize, _ => 0)

  /** Keccak-256, left uninterpreted: any total function onto 32-byte digests. */
  type Hasher = seq<byte> -> Digest

  datatype Option<+T> = None | Some(value: T)

  /** The reasons an operation can fail. Only the distinction between success
      and failure (and which step failed) is modelled, not the message text. */
  datatype Error =
    | MissingDefaultConfig      // `new`: no configuration for the default kind
    | AdapterConstruction       // an adapter constructor returned `Err`
    | NoTypeByte                // `get_tx` on an empty address
    | UnsupportedBackend        // `get_tx` on an unregistered tag
    | NoDefaultAdapter          // `set_tx` found no adapter under the default tag
    | UnknownDaType             // `DaType::from_str` on an unknown name
    | InvalidHex                // `hex::decode` failed
    | BadLength                 // a byte string of the wrong length
    | Io                        // a filesystem or network call failed
    | ValidationFailed          // a fetched blob failed its commitment check
    | MalformedResponse         // a response body did not parse
    | Rejected                  // a backend answered with a non-zero code

  datatype Result<+T> = Ok(value: T) | Err(error: Error)
}
