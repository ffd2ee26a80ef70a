/** The local file adapter: a content-addressed directory in which the file
    named by the lowercase hex of Keccak-256(tx) holds the hex text of tx.
    The directory is modelled as a map from file name to file text. */
module FileStore {
  import opened Common
  import Hex
  import DaTypes

  /** `file_service::Config`: the directory root. */
  datatype Config = Config(path: string)

  /** `FileService::hash`: Keccak-256 of the payload. */
  function Hash(keccak: Hasher, tx: seq<byte>): (h: seq<byte>)
    ensures |h| == DigestSize && h == keccak(tx)
  {
    keccak(tx)
  }

  /** The file name under which the payload with handle `hash` is kept. */
  function Key(hash: seq<byte>): (k: string)
    ensures |k| == 2 * |hash|
    ensures forall i :: 0 <= i < |k| ==> Hex.IsLowerHexChar(k[i])
  {
    Hex.EncodeIsLowerHex(hash);
    Hex.Encode(hash)
  }

  /** The directory after `set_full_tx(tx)` has written its file. */
  function Stored(dir: map<string, string>, keccak: Hasher, tx: seq<byte>): (s: map<string, string>)
    ensures s.Keys == dir.Keys + {Key(keccak(tx))}
    ensures Hex.Decode(s[Key(keccak(tx))]) == Some(tx)
    ensures forall k :: k in dir && k != Key(keccak(tx)) ==> s[k] == dir[k]
  {
    Hex.DecodeEncode(tx);
    dir[Key(keccak(tx)) := Hex.Encode(tx)]
  }

  /** What `get_tx(hash)` returns on directory `dir`. The empty handle names
      the storage directory itself, which exists and cannot be read as a
      file; otherwise a missing file is an empty payload and a file whose
      text is not hex is an error. */
  function Lookup(dir: map<string, string>, hash: seq<byte>): (r: Result<seq<byte>>)
    ensures hash == [] ==> r == Err(Io)
    ensures hash != [] && Key(hash) !in dir ==> r == Ok([])
    ensures hash != [] && Key(hash) in dir ==> (r.Ok? <==> Hex.Decode(dir[Key(hash)]).Some?)
    ensures r.Ok? && r.value != [] ==> Key(hash) in dir && Hex.Decode(dir[Key(hash)]) == Some(r.value)
  {
    var key := Key(hash);
    if hash == [] then Err(Io)
    else if key in dir then
      match Hex.Decode(dir[key])
      case Some(payload) => Ok(payload)
      case None => Err(InvalidHex)
    else Ok([])
  }

  /** Whether `FileService::new` can open the directory: it already exists
      (`existing` is `Some`) or creating it succeeds. */
  predicate Opens(existing: Option<map<string, string>>, createOk: bool) {
    existing.Some? || createOk
  }

  /** Every file in the directory holds text that `hex::decode` accepts. */
  predicate WellFormed(dir: map<string, string>) {
    forall k :: k in dir ==> Hex.Decode(dir[k]).Some?
  }

  /** `FileService`: the adapter and the directory it owns. */
  class FileService {
    const root: string
    const keccak: Hasher
    var dir: map<string, string>

    constructor Open(root: string, keccak: Hasher, dir: map<string, string>)
      ensures this.root == root && this.keccak == keccak && this.dir == dir
    {
      this.root := root;
      this.keccak := keccak;
      this.dir := dir;
    }

    /** `FileService::new`: when the directory does not exist (`existing` is
        `None`) it is created, which may fail; an existing directory keeps its
        files. */
    static method New(cfg: Config, keccak: Hasher, existing: Option<map<string, string>>, createOk: bool)
      returns (r: Result<FileService>)
      ensures r.Err? <==> !Opens(existing, createOk)
      ensures r.Err? ==> r.error == Io
      ensures r.Ok? ==> fresh(r.value) && r.value.root == cfg.path && r.value.keccak == keccak
      ensures r.Ok? ==> r.value.dir == if existing.Some? then existing.value else map[]
    {
      if !Opens(existing, createOk) {
        return Err(Io);
      }
      var contents := if existing.Some? then existing.value else map[];
      var service := new FileService.Open(cfg.path, keccak, contents);
      r := Ok(service);
    }

    /** `set_full_tx`: writes hex(tx) to the file named hex(keccak(tx)),
        overwriting any previous content, and returns keccak(tx). A failed
        write is an error and leaves the directory as it was. */
    method SetFullTx(tx: seq<byte>, writeOk: bool) returns (r: Result<seq<byte>>)
      modifies this
      ensures writeOk ==> r.Ok? && r.value == keccak(tx) && dir == Stored(old(dir), keccak, tx)
      ensures !writeOk ==> r == Err(Io) && dir == old(dir)
    {
      var hash := Hash(keccak, tx);
      var key := Key(hash);
      var value := Hex.Encode(tx);
      if !writeOk {
        return Err(Io);
      }
      dir := dir[key := value];
      r := Ok(hash);
    }

    /** `get_tx`: reads and hex-decodes the file named hex(hash). */
    method GetTx(hash: seq<byte>) returns (r: Result<seq<byte>>)
      ensures r == Lookup(dir, hash)
    {
      var key := Key(hash);
      if hash == [] {
        return Err(Io);
      }
      if key in dir {
        var content := Hex.Decode(dir[key]);
        if content.None? {
          return Err(InvalidHex);
        }
        r := Ok(content.value);
      } else {
        r := Ok([]);
      }
    }

    /** `type_byte`. */
    static function TypeByte(): (b: byte)
      ensures b == 0 && b == DaTypes.DaType.File.TypeByte()
    {
      DaTypes.DaType.File.TypeByte()
    }
  }

  /** Fetching the handle a store returned gives back the payload. */
  lemma FetchAfterStore(dir: map<string, string>, keccak: Hasher, tx: seq<byte>)
    ensures Lookup(Stored(dir, keccak, tx), keccak(tx)) == Ok(tx)
  {
    Hex.DecodeEncode(tx);
  }

  /** A store changes only its own file: every other handle resolves as before. */
  lemma StoreLeavesOthers(dir: map<string, string>, keccak: Hasher, tx: seq<byte>, hash: seq<byte>)
    requires hash != keccak(tx)
    ensures Lookup(Stored(dir, keccak, tx), hash) == Lookup(dir, hash)
    ensures Stored(dir, keccak, tx).Keys == dir.Keys + {Key(keccak(tx))}
  {
    if Key(hash) == Key(keccak(tx)) {
      Hex.EncodeInjective(hash, keccak(tx));
    }
  }

  /** Storing the same payload twice leaves the directory as the first store did. */
  lemma StoreIdempotent(dir: map<string, string>, keccak: Hasher, tx: seq<byte>)
    ensures Stored(Stored(dir, keccak, tx), keccak, tx) == Stored(dir, keccak, tx)
  {
  }

  /** Stores keep every file valid hex, so lookups in a directory written only
      by this adapter never fail. */
  lemma StoreKeepsWellFormed(dir: map<string, string>, keccak: Hasher, tx: seq<byte>, hash: seq<byte>)
    requires WellFormed(dir)
    ensures WellFormed(Stored(dir, keccak, tx))
    ensures Lookup(Stored(dir, keccak, tx), hash).Ok? <==> hash != []
  {
    Hex.DecodeEncode(tx);
  }
}
