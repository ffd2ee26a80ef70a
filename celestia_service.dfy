/** The Celestia adapter. Its handle is the 32-byte blob commitment followed by
    the 8-byte big-endian height of the block that included the blob. The RPC
    client is external: blob submission and retrieval are passed in as
    functions, and the commitment scheme as an uninterpreted function of the
    namespace and the data. */
module CelestiaStore {
  import opened Common
  import Hex
  import BigEndian
  import DaTypes

  /** `celestia_types::consts::HASH_SIZE` plus the eight height bytes. */
  const HandleSize: nat := DigestSize + 8

  /** Length of a version-0 namespace id, the array `Namespace::const_v0` takes. */
  const NamespaceIdSize: nat := 10

  /** `celestia_service::Config`. */
  datatype Config = Config(url: string, token: string, id: string)

  /** A blob as the client returns it. */
  datatype Blob = Blob(namespace: seq<byte>, data: seq<byte>, commitment: Digest)

  /** `CelestiaService`: the namespace it writes to, and the commitment
      function `Blob::new` and `Blob::validate` use. */
  datatype CelestiaService = CelestiaService(namespace: seq<byte>, commit: (seq<byte>, seq<byte>) -> Digest)

  /** The namespace step of `CelestiaService::new`: the id must be hex and
      decode to exactly `NamespaceIdSize` bytes. */
  function ParseNamespace(id: string): (r: Result<seq<byte>>)
    ensures r.Ok? <==> Hex.Decode(id).Some? && |Hex.Decode(id).value| == NamespaceIdSize
    ensures r.Ok? ==> r.value == Hex.Decode(id).value
    ensures |id| != 2 * NamespaceIdSize ==> r.Err?
  {
    match Hex.Decode(id)
    case None => Err(InvalidHex)
    case Some(bytes) => if |bytes| == NamespaceIdSize then Ok(bytes) else Err(BadLength)
  }

  /** Every 10-byte namespace written as hex parses back to itself. */
  lemma ParseNamespaceOfHex(ns: seq<byte>)
    requires |ns| == NamespaceIdSize
    ensures ParseNamespace(Hex.Encode(ns)) == Ok(ns)
  {
    Hex.DecodeEncode(ns);
  }

  /** `CelestiaService::new`: parses the namespace, then connects the client
      (`connectOk` is whether `Client::new` succeeded). */
  function New(cfg: Config, commit: (seq<byte>, seq<byte>) -> Digest, connectOk: bool): (r: Result<CelestiaService>)
    ensures r.Ok? <==> ParseNamespace(cfg.id).Ok? && connectOk
    ensures r.Ok? ==> r.value.namespace == ParseNamespace(cfg.id).value && |r.value.namespace| == NamespaceIdSize
  {
    match ParseNamespace(cfg.id)
    case Err(e) => Err(e)
    case Ok(ns) => if connectOk then Ok(CelestiaService(ns, commit)) else Err(Io)
  }

  /** The blob `Blob::new` builds from a namespace and data. */
  function MakeBlob(svc: CelestiaService, namespace: seq<byte>, data: seq<byte>): Blob {
    Blob(namespace, data, svc.commit(namespace, data))
  }

  /** `Blob::validate`: the commitment matches the namespace and data. */
  predicate Validates(svc: CelestiaService, blob: Blob): (ok: bool)
    ensures ok <==> blob == MakeBlob(svc, blob.namespace, blob.data)
  {
    blob.commitment == svc.commit(blob.namespace, blob.data)
  }

  /** The handle `set_full_tx` returns for a commitment and a height. */
  function EncodeHandle(commitment: Digest, height: BigEndian.u64): (h: seq<byte>)
    ensures |h| == HandleSize
    ensures h[..DigestSize] == commitment
  {
    commitment + BigEndian.U64ToBe(height)
  }

  /** How `get_tx` splits a handle: `None` when it is shorter than 40 bytes,
      otherwise the commitment from bytes 0..32 and the big-endian height
      from bytes 32..40. */
  function DecodeHandle(h: seq<byte>): (r: Option<(Digest, BigEndian.u64)>)
    ensures r.None? <==> |h| < HandleSize
    ensures r.Some? ==> r.value.0 == h[..DigestSize]
  {
    if |h| < HandleSize then None
    else
      var commitment: Digest := h[..DigestSize];
      Some((commitment, BigEndian.U64FromBe(h[DigestSize..HandleSize])))
  }

  /** Decoding an encoded handle gives back its commitment and height. */
  lemma HandleRoundTrip(commitment: Digest, height: BigEndian.u64)
    ensures DecodeHandle(EncodeHandle(commitment, height)) == Some((commitment, height))
  {
    var h := EncodeHandle(commitment, height);
    assert h[DigestSize..HandleSize] == BigEndian.U64ToBe(height);
    BigEndian.U64FromToBe(height);
  }

  /** Bytes after the first 40 do not affect decoding. */
  lemma DecodeIgnoresSuffix(h: seq<byte>, extra: seq<byte>)
    requires |h| >= HandleSize
    ensures DecodeHandle(h + extra) == DecodeHandle(h)
  {
    assert (h + extra)[..DigestSize] == h[..DigestSize];
    assert (h + extra)[DigestSize..HandleSize] == h[DigestSize..HandleSize];
  }

  /** A well-formed 40-byte handle is the encoding of what it decodes to. */
  lemma HandleDecodeEncode(h: seq<byte>)
    requires |h| == HandleSize
    ensures EncodeHandle(DecodeHandle(h).value.0, DecodeHandle(h).value.1) == h
  {
    assert h == h[..DigestSize] + h[DigestSize..HandleSize];
  }

  /** What `get_tx` returns once the client has answered `fetched`: the data
      of a blob that validates, an error otherwise. */
  function Accept(svc: CelestiaService, fetched: Result<Blob>): (r: Result<seq<byte>>)
    ensures r.Ok? <==> fetched.Ok? && Validates(svc, fetched.value)
    ensures r.Ok? ==> r.value == fetched.value.data
  {
    match fetched
    case Err(e) => Err(e)
    case Ok(blob) => if Validates(svc, blob) then Ok(blob.data) else Err(ValidationFailed)
  }

  /** `<[u8]>::copy_from_slice` into a fixed array. */
  method CopyFromSlice(dst: array<byte>, src: seq<byte>)
    requires |src| == dst.Length
    modifies dst
    ensures dst[..] == src
  {
    var i := 0;
    while i < dst.Length
      invariant 0 <= i <= dst.Length
      invariant dst[..i] == src[..i]
    {
      dst[i] := src[i];
      i := i + 1;
    }
  }

  /** `set_full_tx`: builds the blob (which may fail, `blobOk`), takes its
      commitment, submits it, and appends the big-endian submit height.
      `submitted` is the blob handed to the client, if any. */
  method SetFullTx(svc: CelestiaService, tx: seq<byte>, blobOk: bool, submit: Blob -> Result<BigEndian.u64>)
    returns (r: Result<seq<byte>>, submitted: Option<Blob>)
    ensures submitted.None? <==> !blobOk
    ensures submitted.Some? ==> submitted.value == MakeBlob(svc, svc.namespace, tx)
    ensures r.Ok? <==> blobOk && submit(MakeBlob(svc, svc.namespace, tx)).Ok?
    ensures r.Ok? ==> r.value == EncodeHandle(svc.commit(svc.namespace, tx),
                                              submit(MakeBlob(svc, svc.namespace, tx)).value)
  {
    if !blobOk {
      return Err(Io), None;
    }
    var blob := MakeBlob(svc, svc.namespace, tx);
    var hash := blob.commitment;
    submitted := Some(blob);
    var height := submit(blob);
    if height.Err? {
      return Err(height.error), submitted;
    }
    hash := hash + BigEndian.U64ToBe(height.value);
    r := Ok(hash);
  }

  /** `get_tx`: rejects a handle shorter than 40 bytes without contacting the
      client (`query` is `None`); otherwise copies out the commitment and the
      height, asks the client for that blob (`query` records the request) and
      returns its data only if it validates. */
  method GetTx(svc: CelestiaService, handle: seq<byte>,
               blobGet: (BigEndian.u64, seq<byte>, Digest) -> Result<Blob>)
    returns (r: Result<seq<byte>>, query: Option<(Digest, BigEndian.u64)>)
    ensures query == DecodeHandle(handle)
    ensures query.None? ==> r == Err(BadLength)
    ensures query.Some? ==> r == Accept(svc, blobGet(query.value.1, svc.namespace, query.value.0))
  {
    if |handle| < HandleSize {
      return Err(BadLength), None;
    }
    var commitment := new byte[DigestSize];
    CopyFromSlice(commitment, handle[..DigestSize]);
    var bytes := new byte[8];
    CopyFromSlice(bytes, handle[DigestSize..HandleSize]);
    var height := BigEndian.U64FromBe(bytes[..]);
    var c: Digest := commitment[..];
    query := Some((c, height));
    var blob := blobGet(height, svc.namespace, c);
    r := Accept(svc, blob);
  }

  /** A handle from `set_full_tx` resolves to the submitted payload when the
      chain returns the blob that was submitted at that height. */
  lemma ResolveSubmitted(svc: CelestiaService, tx: seq<byte>, height: BigEndian.u64,
                         blobGet: (BigEndian.u64, seq<byte>, Digest) -> Result<Blob>)
    requires blobGet(height, svc.namespace, svc.commit(svc.namespace, tx))
             == Ok(MakeBlob(svc, svc.namespace, tx))
    ensures var q := DecodeHandle(EncodeHandle(svc.commit(svc.namespace, tx), height));
            q.Some? && Accept(svc, blobGet(q.value.1, svc.namespace, q.value.0)) == Ok(tx)
  {
    HandleRoundTrip(svc.commit(svc.namespace, tx), height);
  }

  /** `type_byte`. */
  function TypeByte(): (b: byte)
    ensures b == 2 && b == DaTypes.DaType.Celestia.TypeByte()
  {
    DaTypes.DaType.Celestia.TypeByte()
  }
}
