# Data-availability service manager, modelled in Dafny

This project models the core of the `da` crate. The crate multiplexes several
data-availability backends behind one addressing scheme. An adapter stores a
payload and returns a backend-specific *handle*. The manager prefixes the handle
with the adapter's one-byte *tag* (`type_byte`) to form an *address*, and later
routes an address back to the adapter its tag names.

The model covers the crate as compiled with the features `file`, `ipfs`,
`celestia` and `greenfield`; `ethereum` is off.

| module | file | models |
|---|---|---|
| `Common` | `common.dfy` | bytes, 32-byte digests, `Option`/`Result`, the error kinds |
| `Hex` | `hex.dfy` | `hex::encode` / `hex::decode` (lowercase out, either case in) |
| `BigEndian` | `big_endian.dfy` | `u64::to_be_bytes` / `u64::from_be_bytes` |
| `DaTypes` | `da_type.dfy` | `DaType`: tags, `Default`, `FromStr` |
| `FileStore` | `file_service.dfy` | `FileService` over a directory held as a map from file name to text |
| `CelestiaStore` | `celestia_service.dfy` | `CelestiaService`: namespace parsing, handle layout, blob validation gate |
| `GreenfieldStore` | `greenfield_service.dfy` | `GreenfieldService`: object keys and URLs, probe / create / put protocol |
| `Service` | `service.dfy` | `DAService::set_tx`, `DAServiceManager::{new, types, default_type, get_tx, set_tx}` |

Several things outside the program become parameters.
- Keccak-256 is an uninterpreted total function onto 32-byte digests (`Common.Hasher`).
- The blob commitment scheme is an uninterpreted function of namespace and data.
- Each call to an external system is a function parameter:
  - the Celestia RPC client's `blob_submit` and `blob_get`;
  - Greenfield's `get_obj`, `create_obj` and `put_obj` helpers;
  - `serde_json::from_slice::<Resp>`.
- What constructors find outside the program is also a parameter: whether a directory exists or can be created, whether an IPFS URL parses, and whether the Celestia client connects.
- Whether a filesystem write succeeds is a boolean parameter.

Methods that call an external system also return what they handed it: the Celestia blob submitted or queried, the Greenfield HTTP requests in order, and the adapter and handle or payload the manager dispatched to. A contract can therefore state which backend is contacted, with what, and in what order, and when none is.

Where the intended design and the code disagree, the model follows the code:
- Greenfield `get_tx` returns the bytes `get_obj` delivers as they are. It does not hex-decode them, although `set_full_tx` uploads hex text (`src/greenfield_servic.rs:101-110`).
- File `get_tx` of a non-empty handle that was never stored returns an empty payload, not a not-found error (`src/file_service.rs:50-55`). The empty handle names the storage directory itself, so it exists, cannot be read as a file, and is an I/O error.
- `new` has no duplicate-tag check: `BTreeMap::insert` would overwrite. The model proves instead that each configured kind is inserted under its own distinct tag, so a collision cannot occur (`Service.RegistryInsert`, `Service.BuildRegistry`).
- `DaType::from_str("ethereum")` fails in this build, because the `ethereum` arm is compiled out.

## Model

| member | source | states |
|---|---|---|
| `Hex.DecodeEncode` | src/file_service.rs:37-39 | hex-decoding the hex encoding of any byte string gives it back |
| `Hex.EncodeDecode` | src/file_service.rs:46-52 | any all-lowercase text that decodes is the encoding of what it decodes to |
| `Hex.EncodeInjective` | src/file_service.rs:37 | distinct digests get distinct hex keys |
| `Hex.EncodeIsLowerHex` | src/greenfield_servic.rs:60 | the encoding consists of lowercase hex digits only |
| `Hex.Encode` | src/file_service.rs:39 | the encoding is twice as long as its input |
| `Hex.Decode` | src/file_service.rs:52 | a successful decode halves the length; odd-length text never decodes |
| `Hex.DigitValue` | src/file_service.rs:52 | a character is accepted exactly when it is a hex digit of either case, with value 0..15 |
| `BigEndian.DecodeEncode` | src/celestia_service.rs:41 | reading back `n` big-endian bytes of a number below 256^n gives the number |
| `BigEndian.EncodeDecode` | src/celestia_service.rs:51-53 | re-encoding the value of any byte string at its own width gives the same bytes |
| `BigEndian.U64ToBe` | src/celestia_service.rs:41 | `to_be_bytes` gives eight bytes whose big-endian value is the number |
| `BigEndian.U64FromBe` | src/celestia_service.rs:51-53 | `from_be_bytes` of eight bytes is the number whose `to_be_bytes` are those bytes |
| `BigEndian.U64FromToBe` | src/celestia_service.rs:41-53 | `from_be_bytes` undoes `to_be_bytes` on every `u64` |
| `BigEndian.Decode` | src/celestia_service.rs:53 | the value of `n` bytes is below 256^n |
| `DaTypes.DaType.TypeByte` | src/da_type.rs:21-25 | the tag is below the number of declared variants |
| `DaTypes.TypeByteIsPosition` | src/da_type.rs:6-19 | the tag is the variant's discriminant, its position in declaration order |
| `DaTypes.TypeByteInjective` | src/da_type.rs:6-25 | two variants have the same tag exactly when they are the same variant |
| `DaTypes.DefaultAmong` | src/da_type.rs:27-42 | the default is an enabled variant and no enabled variant is declared after it |
| `DaTypes.Default` | src/da_type.rs:27-42 | in this build the default is `Greenfield`, tag 3 |
| `DaTypes.FromStr` | src/da_type.rs:44-61 | in this build a parsed variant is one of the four enabled ones, never `Ethereum`, and is named exactly by the string; any other string is an unknown-type error |
| `DaTypes.FromStrIn` | src/da_type.rs:44-61 | a parsed variant is enabled and is named exactly by the string; any other string is an unknown-type error |
| `DaTypes.FromStrInExact` | src/da_type.rs:44-61 | parsing succeeds exactly when some enabled variant has that name, and every enabled name parses to its variant |
| `DaTypes.FromStrInThisBuild` | src/da_type.rs:44-61 | exactly "file", "ipfs", "celestia" and "greenfield" parse; "ethereum" and "File" do not |
| `FileStore.Hash` | src/file_service.rs:28-30 | the handle is the 32-byte Keccak-256 digest of the payload |
| `FileStore.Key` | src/file_service.rs:37 | the file name is lowercase hex, twice the handle's length |
| `FileStore.Stored` | src/file_service.rs:35-44 | after a store the directory has exactly one more possible file name, hex(hash), whose text decodes to the payload; every other file is unchanged |
| `FileStore.Lookup` | src/file_service.rs:46-58 | the empty handle, naming the directory itself, is an I/O error; otherwise a missing file reads as the empty payload and a present file succeeds exactly when its text is hex; a non-empty payload is the decoding of the handle's file |
| `FileStore.FileService.New` | src/file_service.rs:20-26 | opening fails, with an I/O error, exactly when the directory is missing and cannot be created; otherwise an existing directory keeps its files |
| `FileStore.FileService.SetFullTx` | src/file_service.rs:35-44 | a successful write returns Keccak-256(tx) and the directory gains exactly hex(tx) under hex(hash); a failed write changes nothing |
| `FileStore.FileService.GetTx` | src/file_service.rs:46-58 | the result is the lookup of the handle's file in the current directory, including the I/O error for the empty handle |
| `FileStore.FileService.TypeByte` | src/file_service.rs:60-62 | the tag is 0, that of `DaType::File` |
| `FileStore.FetchAfterStore` | src/file_service.rs:35-58 | fetching the handle a store returned gives back the stored payload |
| `FileStore.StoreLeavesOthers` | src/file_service.rs:35-44 | a store adds only its own file; every other handle resolves as before |
| `FileStore.StoreIdempotent` | src/file_service.rs:36-41 | storing the same payload again leaves the directory as the first store did |
| `FileStore.StoreKeepsWellFormed` | src/file_service.rs:35-58 | stores keep every file valid hex, so a lookup in such a directory fails exactly for the empty handle |
| `CelestiaStore.ParseNamespace` | src/celestia_service.rs:23-25 | the id is accepted exactly when it is hex of exactly 10 bytes, and yields those bytes; an id not 20 characters long is rejected |
| `CelestiaStore.ParseNamespaceOfHex` | src/celestia_service.rs:23-25 | every 10-byte namespace written as hex parses back to itself |
| `CelestiaStore.New` | src/celestia_service.rs:22-31 | construction succeeds exactly when the namespace parses and the client connects |
| `CelestiaStore.EncodeHandle` | src/celestia_service.rs:39-41 | the handle is 40 bytes and begins with the commitment |
| `CelestiaStore.DecodeHandle` | src/celestia_service.rs:46-53 | a handle is refused exactly when it is shorter than 40 bytes; otherwise its first 32 bytes are the commitment |
| `CelestiaStore.HandleRoundTrip` | src/celestia_service.rs:36-53 | splitting a handle from `set_full_tx` gives back its commitment and height |
| `CelestiaStore.DecodeIgnoresSuffix` | src/celestia_service.rs:46-53 | bytes after the 40th do not affect which blob is requested |
| `CelestiaStore.HandleDecodeEncode` | src/celestia_service.rs:46-53 | a 40-byte handle is the encoding of what it splits into |
| `CelestiaStore.Validates` | src/celestia_service.rs:58 | a blob validates exactly when it is the blob `Blob::new` builds from its own namespace and data |
| `CelestiaStore.Accept` | src/celestia_service.rs:54-59 | data is returned exactly when the blob was fetched and validates, and it is that blob's data |
| `CelestiaStore.CopyFromSlice` | src/celestia_service.rs:49-52 | the array holds exactly the copied slice |
| `CelestiaStore.SetFullTx` | src/celestia_service.rs:36-43 | the client is handed exactly the blob built from the namespace and the payload, and nothing when the blob cannot be built; success exactly when the blob builds and is submitted; the handle is the commitment followed by the big-endian height |
| `CelestiaStore.GetTx` | src/celestia_service.rs:45-60 | a short handle is refused without contacting the client; otherwise the client is asked for the commitment and height the handle holds, and only validated data is returned |
| `CelestiaStore.ResolveSubmitted` | src/celestia_service.rs:36-60 | a handle from `set_full_tx` resolves to the submitted payload when the chain returns that blob |
| `CelestiaStore.TypeByte` | src/celestia_service.rs:62-64 | the tag is 2, that of `DaType::Celestia` |
| `GreenfieldStore.Hash` | src/greenfield_servic.rs:38-40 | the handle is the 32-byte Keccak-256 digest |
| `GreenfieldStore.New` | src/greenfield_servic.rs:28-36 | construction never fails and keeps the host and bucket every object URL is built from |
| `GreenfieldStore.ObjectUrl` | src/greenfield_servic.rs:61 | the URL is an `http://` URL whose last characters are the hex key, which decodes to the handle |
| `GreenfieldStore.ObjectUrlInjective` | src/greenfield_servic.rs:61 | distinct handles address distinct object URLs |
| `GreenfieldStore.UploadRequest` | src/greenfield_servic.rs:62-68 | the uploaded text hex-decodes to the payload and is sent as plain text, visibility 1, synchronously |
| `GreenfieldStore.ReadProbe` | src/greenfield_servic.rs:49-54 | the probe says "already stored" exactly when the fetch succeeds and parses with code 0, and "unparsable" exactly when it succeeds but does not parse |
| `GreenfieldStore.GetTx` | src/greenfield_servic.rs:101-110 | exactly one fetch, of the object's URL, and its bytes are returned as they are |
| `GreenfieldStore.SetFullTx` | src/greenfield_servic.rs:45-99 | probe first; stop on "already stored" or on a parse failure; otherwise create, then put only after a successful create; success returns Keccak-256(tx); at most three calls |
| `GreenfieldStore.TypeByte` | src/greenfield_servic.rs:112-114 | the tag is 3, that of `DaType::Greenfield` |
| `Service.Adapter.TypeByte` | src/service.rs:22 | every adapter reports its own kind's tag |
| `Service.Encode` | src/service.rs:27-29 | the address is the tag followed by the handle |
| `Service.Decode` | src/service.rs:116-118 | only the empty address has no tag |
| `Service.AddressRoundTrip` | src/service.rs:113-125 | splitting an address gives back its tag and handle, for every handle including the empty one, and every non-empty address is so composed |
| `Service.Tagged` | src/service.rs:24-32 | `set_tx` succeeds exactly when `set_full_tx` does, passes its error on, and the address splits into the adapter's tag and the handle |
| `Service.AdapterSetTx` | src/service.rs:24-32 | building the address in place gives the tagged result |
| `Service.ConfiguredUpTo` | src/service.rs:76-98 | the kinds handled so far are the configured ones among them, in ascending tag order |
| `Service.Configured` | src/service.rs:76-98 | the kinds `new` constructs are exactly the configured ones |
| `Service.ConfiguredPrefix` | src/service.rs:76-98 | each stage of construction extends the previous one |
| `Service.Construct` | src/service.rs:76-98 | a constructor that succeeds yields an adapter of its own kind |
| `Service.RegistryInsert` | src/service.rs:76-98 | inserting a new kind's adapter under its tag keeps the registry exactly the tags of the kinds built, each holding an adapter of that kind |
| `Service.StageRegister` | src/service.rs:77-80 | after a successful constructor the registry covers one more configured kind |
| `Service.StageFail` | src/service.rs:78 | a failing constructor ends construction: everything before it built, not everything configured builds |
| `Service.BuildFromSpec` | src/service.rs:74-104 | the rest of construction either stops at the first failing constructor or completes the registry of all configured kinds |
| `Service.CompleteIsValid` | src/service.rs:100-103 | a completed registry with the default configured is a valid manager |
| `Service.BuildOrder` | src/service.rs:41-98 | a missing default configuration fails before any constructor runs; otherwise the constructors that ran are a prefix of the configured kinds in declaration order, all but the last succeeded, and a failure is the last one's |
| `Service.BuildAllOrNothing` | src/service.rs:74-104 | `new` succeeds exactly when the default kind is configured and every configured constructor succeeds; then every configured kind was constructed and the manager is valid with the requested default tag |
| `Service.BuildRegistry` | src/service.rs:74-104 | a registry built by `new` holds exactly the tags of the configured kinds, each holding an adapter of that kind |
| `Service.BuildFromExtends` | src/service.rs:76-98 | construction only extends what it has: the kinds that ran begin with those handled so far, a failure adds the failing kind, and a success keeps every tag registered so far |
| `Service.Build` | src/service.rs:41-104 | a missing default configuration is refused with nothing constructed; a success has the default configured and carries its tag; a failure after that check names at least the failing kind |
| `Service.New` | src/service.rs:41-104 | the result, and the kinds whose constructors ran, are those the construction specification `Build` gives, about which `BuildOrder`, `BuildAllOrNothing` and `BuildRegistry` are proved |
| `Service.KeysFrom` | src/service.rs:105-107 | the registered tags from a bound on, strictly ascending, none missing |
| `Service.Types` | src/service.rs:105-107 | `types` lists exactly the registered tags, strictly ascending |
| `Service.DefaultType` | src/service.rs:109-111 | on a valid manager the default tag is one of `types` |
| `Service.Route` | src/service.rs:113-125 | an address is routed exactly when it is non-empty and its tag is registered, to that adapter with the rest of the address as handle |
| `Service.GetTx` | src/service.rs:113-126 | an empty address or an unregistered tag fails without contacting any adapter; otherwise exactly the routed adapter is asked for the handle, and its answer is returned |
| `Service.Submit` | src/service.rs:128-135 | with no adapter under the default tag `set_tx(tx)` fails; otherwise it succeeds exactly when the default adapter's `set_full_tx(tx)` does; on a valid manager every address it returns starts with the default tag |
| `Service.SetTx` | src/service.rs:128-135 | the default adapter, and only it, is called exactly when it is registered, and it is handed the caller's `tx`; the result is the submit specification's |
| `Service.SubmitThenRoute` | src/service.rs:113-135 | on a valid manager, the address `set_tx(tx)` returns routes back to the default adapter with exactly the handle its `set_full_tx(tx)` produced |

## Left out

- The network clients are not modelled: the Celestia RPC client, the Greenfield helper service and the HTTP library. Their answers are function parameters, not behaviour.
- `ipfs_service.rs` is not part of this model. An IPFS adapter is only its URL, and whether the URL parses is a parameter.
- `ethereum_servic.rs` and the `ethereum` feature are not modelled. `DaType::Ethereum` keeps its tag 4 but is never enabled, so `new` reports it as unconfigured.
- Asynchrony and concurrency are not modelled. Every call is one sequential step.
- Error message texts, `println!` output and the `anyhow` error chain are not modelled. Only which step failed is kept.
- Incidental failures of `read_to_string` in the file adapter's `get_tx` are not modelled, such as permissions or text that is not UTF-8. A directory entry is either present with its text or absent. The one failure every directory has, the empty handle naming the directory itself, is modelled.
- `Service.Construct`: the manager's registry records the file adapter by its configuration. The directory that adapter owns is modelled separately by `FileStore.FileService`, not carried inside the registry.
- `FileStore.FileService.SetFullTx`: a failed write is modelled as changing nothing. A partial write on a real filesystem is not modelled.
- The constant `NamespaceIdSize` (10) stands for the array size `Namespace::const_v0` takes, defined in `celestia_types`, which is not part of this model.
