/** The Greenfield adapter. Objects live in a bucket behind an HTTP helper
    service; the object key is the lowercase hex of Keccak-256(tx) and the
    uploaded data is hex(tx). The three HTTP helpers and the JSON parser are
    external and are passed in as functions; each method also returns the
    sequence of HTTP calls it made. */
module GreenfieldStore {
  import opened Common
  import Hex
  import DaTypes

  /** `greenfield_servic::Config`. */
  datatype Config = Config(rpcAddr: string, chainId: string, bucket: string,
                           privateKeyPath: string, gfSdkHost: string)

  /** `GreenfieldService`: the configuration it keeps, plus Keccak-256. */
  datatype GreenfieldService = GreenfieldService(cfg: Config, keccak: Hasher)

  /** `gf_sdk_server::Req`. */
  datatype Req = Req(data: string, contentType: string, visibility: int, sync: bool)

  /** `gf_sdk_server::Resp`. */
  datatype Resp = Resp(data: string, msg: string, code: int, id: string)

  /** One request to the helper service. */
  datatype HttpCall = GetObj(url: string) | CreateObj(req: Req, url: string) | PutObj(req: Req, url: string)

  /** The helper service's answers (`get_obj`, `create_obj`, `put_obj`) and
      `serde_json::from_slice::<Resp>`. */
  datatype Http = Http(getObj: string -> Result<seq<byte>>,
                       createObj: (Req, string) -> Result<Resp>,
                       putObj: (Req, string) -> Result<Resp>,
                       parseResp: seq<byte> -> Option<Resp>)

  /** `GreenfieldService::new` never fails; it keeps the helper host and the
      bucket that every object URL is built from. */
  function New(cfg: Config, keccak: Hasher): (svc: GreenfieldService)
    ensures svc.cfg == cfg && svc.keccak == keccak
    ensures forall h :: ObjectUrl(svc, h) == "http://" + cfg.gfSdkHost + "/object/" + cfg.bucket + "/" + Hex.Encode(h)
  {
    GreenfieldService(cfg, keccak)
  }

  /** `GreenfieldService::hash` and the trait-style `hash`: Keccak-256. */
  function Hash(svc: GreenfieldService, tx: seq<byte>): (h: seq<byte>)
    ensures |h| == DigestSize && h == svc.keccak(tx)
  {
    svc.keccak(tx)
  }

  /** `http://{gf_sdk_host}/object/{bucket}/{key}`, shared by submit and
      fetch; the key is the lowercase hex of the handle. */
  function ObjectUrl(svc: GreenfieldService, hash: seq<byte>): (url: string)
    ensures |url| >= 7 + 2 * |hash| && url[..7] == "http://"
    ensures Hex.Decode(url[|url| - 2 * |hash|..]) == Some(hash)
  {
    var prefix := "http://" + svc.cfg.gfSdkHost + "/object/" + svc.cfg.bucket + "/";
    var url := prefix + Hex.Encode(hash);
    assert url[|url| - 2 * |hash|..] == Hex.Encode(hash);
    Hex.DecodeEncode(hash);
    url
  }

  /** Distinct handles address distinct objects. */
  lemma ObjectUrlInjective(svc: GreenfieldService, a: seq<byte>, b: seq<byte>)
    requires ObjectUrl(svc, a) == ObjectUrl(svc, b)
    ensures a == b
  {
    var prefix := "http://" + svc.cfg.gfSdkHost + "/object/" + svc.cfg.bucket + "/";
    assert ObjectUrl(svc, a) == prefix + Hex.Encode(a);
    assert ObjectUrl(svc, b) == prefix + Hex.Encode(b);
    assert Hex.Encode(a) == ObjectUrl(svc, a)[|prefix|..];
    assert Hex.Encode(b) == ObjectUrl(svc, b)[|prefix|..];
    Hex.EncodeInjective(a, b);
  }

  /** The upload request: hex(tx) as plain text, visibility 1, synchronous. */
  function UploadRequest(tx: seq<byte>): (req: Req)
    ensures Hex.Decode(req.data) == Some(tx)
    ensures req.contentType == "text/plain" && req.visibility == 1 && req.sync
  {
    Hex.DecodeEncode(tx);
    Req(Hex.Encode(tx), "text/plain", 1, true)
  }

  /** How the existence probe in `set_full_tx` reads the fetch result. */
  datatype Probe = AlreadyStored | Unparsable | NotStored

  function ReadProbe(fetched: Result<seq<byte>>, parseResp: seq<byte> -> Option<Resp>): (p: Probe)
    ensures p == AlreadyStored <==> fetched.Ok? && parseResp(fetched.value).Some? && parseResp(fetched.value).value.code == 0
    ensures p == Unparsable <==> fetched.Ok? && parseResp(fetched.value).None?
  {
    match fetched
    case Err(_) => NotStored
    case Ok(content) =>
      match parseResp(content)
      case None => Unparsable
      case Some(resp) => if resp.code == 0 then AlreadyStored else NotStored
  }

  /** `get_tx`: fetches the object whose key is hex(hash). */
  method GetTx(svc: GreenfieldService, hash: seq<byte>, http: Http)
    returns (r: Result<seq<byte>>, calls: seq<HttpCall>)
    ensures calls == [GetObj(ObjectUrl(svc, hash))]
    ensures r == http.getObj(ObjectUrl(svc, hash))
  {
    var url := ObjectUrl(svc, hash);
    calls := [GetObj(url)];
    r := http.getObj(url);
  }

  /** `set_full_tx`: probe, then create, then put, stopping at the first
      failure or non-zero response code. */
  method SetFullTx(svc: GreenfieldService, tx: seq<byte>, http: Http)
    returns (r: Result<seq<byte>>, calls: seq<HttpCall>)
    // every success returns the Keccak-256 handle
    ensures r.Ok? ==> r.value == svc.keccak(tx)
    // the probe always comes first, at the object's own URL
    ensures |calls| >= 1 && calls[0] == GetObj(ObjectUrl(svc, svc.keccak(tx)))
    ensures var probe := ReadProbe(http.getObj(ObjectUrl(svc, svc.keccak(tx))), http.parseResp);
      && (probe == AlreadyStored ==> r.Ok? && |calls| == 1)
      && (probe == Unparsable ==> r == Err(MalformedResponse) && |calls| == 1)
      && (probe == NotStored ==> |calls| >= 2)
    // a fall-through creates the object, and puts it only after a successful create
    ensures |calls| >= 2 ==>
      var url := ObjectUrl(svc, svc.keccak(tx));
      var req := UploadRequest(tx);
      var created := http.createObj(req, url);
      && calls[1] == CreateObj(req, url)
      && (created.Ok? && created.value.code == 0 <==> |calls| == 3)
      && (|calls| == 2 ==> r.Err?)
      && (|calls| == 3 ==> calls[2] == PutObj(req, url))
      && (|calls| == 3 ==> (r.Ok? <==> http.putObj(req, url).Ok? && http.putObj(req, url).value.code == 0))
    ensures |calls| <= 3
  {
    var hash := Hash(svc, tx);
    var content;
    content, calls := GetTx(svc, hash, http);
    if content.Ok? {
      var val := http.parseResp(content.value);
      if val.None? {
        return Err(MalformedResponse), calls;
      }
      if val.value.code == 0 {
        return Ok(hash), calls;
      }
    }

    var url := ObjectUrl(svc, hash);
    var req := UploadRequest(tx);

    var created := http.createObj(req, url);
    calls := calls + [CreateObj(req, url)];
    if created.Err? {
      return Err(created.error), calls;
    }
    if created.value.code != 0 {
      return Err(Rejected), calls;
    }

    var put := http.putObj(req, url);
    calls := calls + [PutObj(req, url)];
    if put.Err? {
      return Err(put.error), calls;
    }
    if put.value.code != 0 {
      return Err(Rejected), calls;
    }

    r := Ok(hash);
  }

  /** `type_byte`. */
  function TypeByte(): (b: byte)
    ensures b == 3 && b == DaTypes.DaType.Greenfield.TypeByte()
  {
    DaTypes.DaType.Greenfield.TypeByte()
  }
}
