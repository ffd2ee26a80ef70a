/** `DAServiceManager` and the `DAService` capability: the tag-multiplexed
    address scheme (`tag ++ handle`), construction of the `tag -> adapter`
    registry from per-kind configuration, and dispatch of `set_tx` and
    `get_tx`. Adapter operations that reach external systems are passed in
    as functions; dispatching methods also report which adapter they called. */
module Service {
  import opened Common
  import DaTypes
  import FileStore
  import CelestiaStore
  import GreenfieldStore

  type DaType = DaTypes.DaType

  /** `ipfs_service::Config`. */
  datatype IpfsConfig = IpfsConfig(url: string)

  /** A constructed adapter (`Box<dyn DAService>`), one variant per kind
      compiled into this build. */
  datatype Adapter =
    | FileAdapter(file: FileStore.Config)
    | IpfsAdapter(url: string)
    | CelestiaAdapter(celestia: CelestiaStore.CelestiaService)
    | GreenfieldAdapter(greenfield: GreenfieldStore.GreenfieldService)
  {
    function Kind(): DaType {
      match this
      case FileAdapter(_) => DaTypes.DaType.File
      case IpfsAdapter(_) => DaTypes.DaType.Ipfs
      case CelestiaAdapter(_) => DaTypes.DaType.Celestia
      case GreenfieldAdapter(_) => DaTypes.DaType.Greenfield
    }

    /** `DAService::type_byte`: every adapter reports its own kind's tag. */
    function TypeByte(): (b: byte)
      ensures b == Kind().TypeByte()
    {
      match this
      case FileAdapter(_) => FileStore.FileService.TypeByte()
      case IpfsAdapter(_) => DaTypes.DaType.Ipfs.TypeByte()
      case CelestiaAdapter(_) => CelestiaStore.TypeByte()
      case GreenfieldAdapter(_) => GreenfieldStore.TypeByte()
    }
  }

  // ---------------------------------------------------------------------
  // The address codec

  /** An address: the tag byte followed by the adapter's handle. */
  function Encode(tag: byte, handle: seq<byte>): (address: seq<byte>)
    ensures |address| == 1 + |handle| && address[0] == tag && address[1..] == handle
  {
    [tag] + handle
  }

  /** Splitting an address into tag and handle; an empty address has no tag. */
  function Decode(address: seq<byte>): (r: Option<(byte, seq<byte>)>)
    ensures r.None? <==> address == []
  {
    if address == [] then None else Some((address[0], address[1..]))
  }

  /** `Decode` and `Encode` are inverse, for every handle including the empty one. */
  lemma AddressRoundTrip(tag: byte, handle: seq<byte>, address: seq<byte>)
    ensures Decode(Encode(tag, handle)) == Some((tag, handle))
    ensures Decode(address).Some? ==> Encode(Decode(address).value.0, Decode(address).value.1) == address
  {
    if address != [] {
      assert address == [address[0]] + address[1..];
    }
  }

  // ---------------------------------------------------------------------
  // `DAService::set_tx`

  /** The default `set_tx`: an error from `set_full_tx` is passed on; a
      handle `h` becomes `[type_byte] ++ h`. */
  function Tagged(adapter: Adapter, full: Result<seq<byte>>): (r: Result<seq<byte>>)
    ensures r.Ok? <==> full.Ok?
    ensures r.Err? ==> r.error == full.error
    ensures r.Ok? ==> Decode(r.value) == Some((adapter.TypeByte(), full.value))
    ensures r.Ok? ==> |r.value| == 1 + |full.value|
  {
    match full
    case Err(e) => Err(e)
    case Ok(h) => Ok(Encode(adapter.TypeByte(), h))
  }

  /** The default `set_tx`, building the address in place. `full` is what the
      adapter's `set_full_tx` returned. */
  method AdapterSetTx(adapter: Adapter, full: Result<seq<byte>>) returns (r: Result<seq<byte>>)
    ensures r == Tagged(adapter, full)
  {
    if full.Err? {
      return Err(full.error);
    }
    var hash := full.value;
    var result := [adapter.TypeByte()];
    result := result + hash;
    r := Ok(result);
  }

  // ---------------------------------------------------------------------
  // Construction

  /** The optional configuration block of each kind. */
  datatype Configs = Configs(file: Option<FileStore.Config>,
                             ipfs: Option<IpfsConfig>,
                             celestia: Option<CelestiaStore.Config>,
                             greenfield: Option<GreenfieldStore.Config>)

  /** What the adapter constructors find outside the program: the directory
      at a path (`None` when missing) and whether it can be created, whether
      an IPFS URL parses, the blob commitment scheme, and whether the
      Celestia RPC client connects. Keccak-256 is shared by all adapters. */
  datatype Env = Env(keccak: Hasher,
                     existingDir: string -> Option<map<string, string>>,
                     createDirOk: string -> bool,
                     ipfsUrlOk: string -> bool,
                     commit: (seq<byte>, seq<byte>) -> Digest,
                     celestiaConnects: (string, string) -> bool)

  predicate HasConfig(cfgs: Configs, k: DaType) {
    match k
    case File => cfgs.file.Some?
    case Ipfs => cfgs.ipfs.Some?
    case Celestia => cfgs.celestia.Some?
    case Greenfield => cfgs.greenfield.Some?
    case Ethereum => false
  }

  /** The configured kinds among the first `n` declared kinds, in order. */
  function ConfiguredUpTo(cfgs: Configs, n: nat): (ks: seq<DaType>)
    requires n <= 4
    ensures forall k :: k in ks <==> HasConfig(cfgs, k) && k.TypeByte() as int < n
    ensures forall i, j :: 0 <= i < j < |ks| ==> ks[i].TypeByte() < ks[j].TypeByte()
  {
    if n == 0 then []
    else
      var k := DaTypes.Declared[n - 1];
      ConfiguredUpTo(cfgs, n - 1) + (if HasConfig(cfgs, k) then [k] else [])
  }

  /** The configured kinds, in the order `new` constructs them. */
  function Configured(cfgs: Configs): (ks: seq<DaType>)
    ensures forall k :: k in ks <==> HasConfig(cfgs, k)
  {
    ConfiguredUpTo(cfgs, 4)
  }

  /** Each stage of construction extends the previous one. */
  lemma {:induction false} ConfiguredPrefix(cfgs: Configs, n: nat)
    requires n <= 4
    ensures |ConfiguredUpTo(cfgs, n)| <= |Configured(cfgs)|
    ensures Configured(cfgs)[..|ConfiguredUpTo(cfgs, n)|] == ConfiguredUpTo(cfgs, n)
    decreases 4 - n
  {
    if n < 4 {
      ConfiguredPrefix(cfgs, n + 1);
      var p, q := ConfiguredUpTo(cfgs, n), ConfiguredUpTo(cfgs, n + 1);
      assert q[..|p|] == p;
    }
  }

  /** The constructor of kind `k` run on its configuration:
      `FileService::new`, `IpfsService::new`, `CelestiaService::new` or
      `GreenfieldService::new`. */
  function Construct(cfgs: Configs, env: Env, k: DaType): (r: Result<Adapter>)
    requires HasConfig(cfgs, k)
    ensures r.Ok? ==> r.value.Kind() == k
  {
    match k
    case File =>
      var cfg := cfgs.file.value;
      if FileStore.Opens(env.existingDir(cfg.path), env.createDirOk(cfg.path))
      then Ok(FileAdapter(cfg)) else Err(Io)
    case Ipfs =>
      var cfg := cfgs.ipfs.value;
      if env.ipfsUrlOk(cfg.url) then Ok(IpfsAdapter(cfg.url)) else Err(AdapterConstruction)
    case Celestia =>
      var cfg := cfgs.celestia.value;
      (match CelestiaStore.New(cfg, env.commit, env.celestiaConnects(cfg.url, cfg.token))
       case Ok(service) => Ok(CelestiaAdapter(service))
       case Err(e) => Err(e))
    case Greenfield => Ok(GreenfieldAdapter(GreenfieldStore.New(cfgs.greenfield.value, env.keccak)))
  }

  /** Whether the kind is configured and its constructor succeeds. */
  predicate Builds(cfgs: Configs, env: Env, k: DaType) {
    HasConfig(cfgs, k) && Construct(cfgs, env, k).Ok?
  }

  /** `DAServiceManager`: the registry and the default tag. */
  datatype Manager = Manager(services: map<byte, Adapter>, default: byte)

  /** The registry invariant: every adapter is registered under its own tag,
      and the default tag is registered. */
  predicate Valid(m: Manager) {
    && m.default in m.services
    && forall t :: t in m.services ==> m.services[t].TypeByte() == t
  }

  /** What `new` does from the `n`-th declared kind on, given the kinds
      `built` so far and the registry `services`: each configured kind's
      constructor runs in turn and its adapter is inserted under its tag;
      the first failing constructor ends construction with its error. The
      second component lists the kinds whose constructors ran. */
  function BuildFrom(cfgs: Configs, env: Env, n: nat, built: seq<DaType>, services: map<byte, Adapter>)
    : (res: (Result<map<byte, Adapter>>, seq<DaType>))
    requires n <= 4
    decreases 4 - n
  {
    if n == 4 then (Ok(services), built)
    else
      var k := DaTypes.Declared[n];
      if !HasConfig(cfgs, k) then BuildFrom(cfgs, env, n + 1, built, services)
      else match Construct(cfgs, env, k)
        case Err(e) => (Err(e), built + [k])
        case Ok(adapter) => BuildFrom(cfgs, env, n + 1, built + [k], services[adapter.TypeByte() := adapter])
  }

  /** Construction only ever extends what it has: the kinds that ran start
      with those handled so far, a failure adds the failing kind, and a
      success keeps every tag registered so far. */
  lemma {:induction false} BuildFromExtends(cfgs: Configs, env: Env, n: nat, built: seq<DaType>, services: map<byte, Adapter>)
    requires n <= 4
    ensures var res := BuildFrom(cfgs, env, n, built, services);
      && built <= res.1
      && (res.0.Err? ==> |res.1| > |built|)
      && (res.0.Ok? ==> services.Keys <= res.0.value.Keys)
    decreases 4 - n
  {
    if n < 4 {
      var k := DaTypes.Declared[n];
      if !HasConfig(cfgs, k) {
        BuildFromExtends(cfgs, env, n + 1, built, services);
      } else if Construct(cfgs, env, k).Ok? {
        var adapter := Construct(cfgs, env, k).value;
        BuildFromExtends(cfgs, env, n + 1, built + [k], services[adapter.TypeByte() := adapter]);
      }
    }
  }

  /** What `new` returns: a missing default configuration is refused before
      any constructor runs. */
  function Build(default: DaType, cfgs: Configs, env: Env): (res: (Result<Manager>, seq<DaType>))
    ensures !HasConfig(cfgs, default) ==> res == (Err(MissingDefaultConfig), [])
    ensures res.0.Ok? ==> HasConfig(cfgs, default) && res.0.value.default == default.TypeByte()
    ensures res.0.Err? && HasConfig(cfgs, default) ==> res.1 != []
  {
    if !HasConfig(cfgs, default) then (Err(MissingDefaultConfig), [])
    else
      var (r, built) := BuildFrom(cfgs, env, 0, [], map[]);
      match r
      case Ok(services) => (Ok(Manager(services, default.TypeByte())), built)
      case Err(e) => (Err(e), built)
  }

  /** The state of `new` after it has handled the first `n` kinds: `built`
      are the configured ones, all of which built, and the registry maps each
      one's tag to an adapter of that kind. */
  ghost predicate Stage(cfgs: Configs, env: Env, n: nat, built: seq<DaType>, services: map<byte, Adapter>) {
    && n <= 4
    && built == ConfiguredUpTo(cfgs, n)
    && (forall k :: k in built ==> Builds(cfgs, env, k))
    && services.Keys == (set k | k in built :: k.TypeByte())
    && (forall k :: k in built ==> services[k.TypeByte()].Kind() == k)
  }

  /** Registering the next configured kind. */
  lemma StageRegister(cfgs: Configs, env: Env, n: nat, built: seq<DaType>, services: map<byte, Adapter>, adapter: Adapter)
    requires Stage(cfgs, env, n, built, services) && n < 4
    requires Builds(cfgs, env, DaTypes.Declared[n])
    requires adapter.Kind() == DaTypes.Declared[n]
    ensures Stage(cfgs, env, n + 1, built + [DaTypes.Declared[n]], services[adapter.TypeByte() := adapter])
  {
    var built' := built + [DaTypes.Declared[n]];
    assert built' == ConfiguredUpTo(cfgs, n + 1);
    assert forall j :: j in built' ==> Builds(cfgs, env, j);
    RegistryInsert(built, services, adapter);
  }

  /** Inserting an adapter under its own tag extends a registry of the kinds
      `built` to one of the kinds `built + [kind]`, provided that kind is new. */
  lemma RegistryInsert(built: seq<DaType>, services: map<byte, Adapter>, adapter: Adapter)
    requires services.Keys == set k | k in built :: k.TypeByte()
    requires forall k :: k in built ==> services[k.TypeByte()].Kind() == k
    requires adapter.Kind() !in built
    ensures var built', services' := built + [adapter.Kind()], services[adapter.TypeByte() := adapter];
      && services'.Keys == (set k | k in built' :: k.TypeByte())
      && (forall k :: k in built' ==> services'[k.TypeByte()].Kind() == k)
  {
    var built', services' := built + [adapter.Kind()], services[adapter.TypeByte() := adapter];
    forall k | k in built' ensures services'[k.TypeByte()].Kind() == k {
      if k != adapter.Kind() {
        DaTypes.TypeByteInjective(k, adapter.Kind());
      }
    }
  }

  /** A failed constructor at stage `n`: everything before it built, it did not. */
  lemma StageFail(cfgs: Configs, env: Env, n: nat, built: seq<DaType>, services: map<byte, Adapter>)
    requires Stage(cfgs, env, n, built, services) && n < 4
    requires HasConfig(cfgs, DaTypes.Declared[n]) && !Builds(cfgs, env, DaTypes.Declared[n])
    ensures var built' := built + [DaTypes.Declared[n]];
      && |built'| <= |Configured(cfgs)| && built' == Configured(cfgs)[..|built'|]
      && (forall i :: 0 <= i < |built'| - 1 ==> Builds(cfgs, env, built'[i]))
      && |built'| > 0 && !Builds(cfgs, env, built'[|built'| - 1])
      && !(forall k :: k in Configured(cfgs) ==> Builds(cfgs, env, k))
  {
    var built' := built + [DaTypes.Declared[n]];
    forall i | 0 <= i < |built'| - 1 ensures Builds(cfgs, env, built'[i]) {
      assert built'[i] == built[i];
    }
    ConfiguredPrefix(cfgs, n + 1);
    assert DaTypes.Declared[n] in Configured(cfgs);
  }

  /** What the rest of construction guarantees about its outcome `r` and the
      kinds `b` whose constructors ran: they are a prefix of the configured
      kinds, all but the last built, a failure is the last one's, and a
      success completes the registry. */
  ghost predicate Finished(cfgs: Configs, env: Env, r: Result<map<byte, Adapter>>, b: seq<DaType>) {
    && |b| <= |Configured(cfgs)| && b == Configured(cfgs)[..|b|]
    && (forall i :: 0 <= i < |b| - 1 ==> Builds(cfgs, env, b[i]))
    && (r.Err? ==> |b| > 0 && !Builds(cfgs, env, b[|b| - 1])
                   && !(forall k :: k in Configured(cfgs) ==> Builds(cfgs, env, k)))
    && (r.Ok? ==> Stage(cfgs, env, 4, b, r.value))
  }

  /** A completed stage is a finished, successful construction. */
  lemma FinishedComplete(cfgs: Configs, env: Env, built: seq<DaType>, services: map<byte, Adapter>)
    requires Stage(cfgs, env, 4, built, services)
    ensures Finished(cfgs, env, Ok(services), built)
  {
    ConfiguredPrefix(cfgs, 4);
  }

  /** From a consistent stage, the rest of construction either fails at the
      first configured kind whose constructor fails, or completes the
      registry of all configured kinds. */
  lemma {:induction false} BuildFromSpec(cfgs: Configs, env: Env, n: nat, built: seq<DaType>, services: map<byte, Adapter>)
    requires Stage(cfgs, env, n, built, services)
    ensures Finished(cfgs, env, BuildFrom(cfgs, env, n, built, services).0, BuildFrom(cfgs, env, n, built, services).1)
    decreases 4 - n, 1
  {
    if n == 4 {
      FinishedComplete(cfgs, env, built, services);
    } else if !HasConfig(cfgs, DaTypes.Declared[n]) {
      StageSkip(cfgs, env, n, built, services);
    } else if !Builds(cfgs, env, DaTypes.Declared[n]) {
      StageFail(cfgs, env, n, built, services);
    } else {
      StageBuild(cfgs, env, n, built, services);
    }
  }

  /** Passing over an unconfigured kind. */
  lemma {:induction false} StageSkip(cfgs: Configs, env: Env, n: nat, built: seq<DaType>, services: map<byte, Adapter>)
    requires Stage(cfgs, env, n, built, services) && n < 4
    requires !HasConfig(cfgs, DaTypes.Declared[n])
    ensures Finished(cfgs, env, BuildFrom(cfgs, env, n, built, services).0, BuildFrom(cfgs, env, n, built, services).1)
    decreases 4 - n, 0
  {
    assert Stage(cfgs, env, n + 1, built, services);
    BuildFromSpec(cfgs, env, n + 1, built, services);
  }

  /** Building and registering the next configured kind. */
  lemma {:induction false} StageBuild(cfgs: Configs, env: Env, n: nat, built: seq<DaType>, services: map<byte, Adapter>)
    requires Stage(cfgs, env, n, built, services) && n < 4
    requires Builds(cfgs, env, DaTypes.Declared[n])
    ensures Finished(cfgs, env, BuildFrom(cfgs, env, n, built, services).0, BuildFrom(cfgs, env, n, built, services).1)
    decreases 4 - n, 0
  {
    var k := DaTypes.Declared[n];
    var adapter := Construct(cfgs, env, k).value;
    StageRegister(cfgs, env, n, built, services, adapter);
    BuildFromSpec(cfgs, env, n + 1, built + [k], services[adapter.TypeByte() := adapter]);
  }

  /** Construction from the empty registry, once the default kind is found
      configured, is finished in the sense of `Finished`. */
  lemma BuildFromStart(cfgs: Configs, env: Env)
    ensures Finished(cfgs, env, BuildFrom(cfgs, env, 0, [], map[]).0, BuildFrom(cfgs, env, 0, [], map[]).1)
  {
    assert Stage(cfgs, env, 0, [], map[]);
    BuildFromSpec(cfgs, env, 0, [], map[]);
  }

  /** The order of construction: a missing default configuration fails
      before any constructor runs; otherwise the constructors that ran are a
      prefix of the configured kinds in declaration order, all but the last
      succeeded, and a failure is the last one's. */
  lemma BuildOrder(default: DaType, cfgs: Configs, env: Env)
    ensures var (r, built) := Build(default, cfgs, env);
      && (!HasConfig(cfgs, default) ==> r == Err(MissingDefaultConfig) && built == [])
      && |built| <= |Configured(cfgs)| && built == Configured(cfgs)[..|built|]
      && (forall i :: 0 <= i < |built| - 1 ==> Builds(cfgs, env, built[i]))
      && (r.Err? && HasConfig(cfgs, default) ==> |built| > 0 && !Builds(cfgs, env, built[|built| - 1]))
  {
    if HasConfig(cfgs, default) {
      BuildFromStart(cfgs, env);
      var (r, built) := BuildFrom(cfgs, env, 0, [], map[]);
      assert Build(default, cfgs, env).1 == built;
      assert Build(default, cfgs, env).0.Err? == r.Err?;
    }
  }

  /** `new` is all or nothing: it succeeds exactly when the default kind is
      configured and every configured constructor succeeds, and then every
      configured kind was constructed and the manager is valid, with the
      requested default tag. */
  lemma BuildAllOrNothing(default: DaType, cfgs: Configs, env: Env)
    ensures var (r, built) := Build(default, cfgs, env);
      && (r.Ok? <==> HasConfig(cfgs, default) && forall k :: k in Configured(cfgs) ==> Builds(cfgs, env, k))
      && (r.Ok? ==> built == Configured(cfgs) && Valid(r.value) && r.value.default == default.TypeByte())
  {
    BuildFromStart(cfgs, env);
    var (r, built) := BuildFrom(cfgs, env, 0, [], map[]);
    if HasConfig(cfgs, default) && r.Ok? {
      CompleteIsValid(cfgs, env, built, r.value, default);
    }
  }

  /** A registry built by `new` holds exactly the configured kinds, each
      under its own tag. */
  lemma BuildRegistry(default: DaType, cfgs: Configs, env: Env)
    ensures var (r, built) := Build(default, cfgs, env);
      && (r.Ok? ==> r.value.services.Keys == set k | k in Configured(cfgs) :: k.TypeByte())
      && (r.Ok? ==> forall k :: k in Configured(cfgs) ==> r.value.services[k.TypeByte()].Kind() == k)
  {
    BuildFromStart(cfgs, env);
  }

  /** A completed registry with the default kind configured is a valid manager. */
  lemma CompleteIsValid(cfgs: Configs, env: Env, built: seq<DaType>, services: map<byte, Adapter>, default: DaType)
    requires Stage(cfgs, env, 4, built, services) && HasConfig(cfgs, default)
    ensures Valid(Manager(services, default.TypeByte()))
  {
    forall t | t in services ensures services[t].TypeByte() == t {
      var k :| k in built && k.TypeByte() == t;
    }
  }

  /** `DAServiceManager::new`. `built` lists the kinds whose constructors ran,
      in order. */
  method New(default: DaType, cfgs: Configs, env: Env) returns (r: Result<Manager>, built: seq<DaType>)
    ensures (r, built) == Build(default, cfgs, env)
  {
    built := [];
    if !HasConfig(cfgs, default) {
      return Err(MissingDefaultConfig), built;
    }
    var services: map<byte, Adapter> := map[];
    ghost var outcome := BuildFrom(cfgs, env, 0, built, services);

    if cfgs.file.Some? {
      var cfg := cfgs.file.value;
      if !FileStore.Opens(env.existingDir(cfg.path), env.createDirOk(cfg.path)) {
        return Err(Io), built + [DaTypes.DaType.File];
      }
      var adapter := FileAdapter(cfg);
      built := built + [DaTypes.DaType.File];
      services := services[adapter.TypeByte() := adapter];
    }
    assert outcome == BuildFrom(cfgs, env, 1, built, services);

    if cfgs.ipfs.Some? {
      var cfg := cfgs.ipfs.value;
      if !env.ipfsUrlOk(cfg.url) {
        return Err(AdapterConstruction), built + [DaTypes.DaType.Ipfs];
      }
      var adapter := IpfsAdapter(cfg.url);
      built := built + [DaTypes.DaType.Ipfs];
      services := services[adapter.TypeByte() := adapter];
    }
    assert outcome == BuildFrom(cfgs, env, 2, built, services);

    if cfgs.celestia.Some? {
      var cfg := cfgs.celestia.value;
      var service := CelestiaStore.New(cfg, env.commit, env.celestiaConnects(cfg.url, cfg.token));
      if service.Err? {
        return Err(service.error), built + [DaTypes.DaType.Celestia];
      }
      var adapter := CelestiaAdapter(service.value);
      built := built + [DaTypes.DaType.Celestia];
      services := services[adapter.TypeByte() := adapter];
    }
    assert outcome == BuildFrom(cfgs, env, 3, built, services);

    if cfgs.greenfield.Some? {
      var cfg := cfgs.greenfield.value;
      var adapter := GreenfieldAdapter(GreenfieldStore.New(cfg, env.keccak));
      built := built + [DaTypes.DaType.Greenfield];
      services := services[adapter.TypeByte() := adapter];
    }
    assert outcome == BuildFrom(cfgs, env, 4, built, services);
    r := Ok(Manager(services, default.TypeByte()));
  }

  // ---------------------------------------------------------------------
  // Queries and dispatch

  /** The tags `keys` holds that are at least `lo`, in ascending order. */
  function KeysFrom(keys: set<byte>, lo: nat): (r: seq<byte>)
    requires lo <= 256
    ensures forall i :: 0 <= i < |r| ==> r[i] in keys && lo <= r[i] as int
    ensures forall b :: b in keys && lo <= b as int ==> b in r
    ensures forall i, j :: 0 <= i < j < |r| ==> r[i] < r[j]
    decreases 256 - lo
  {
    if lo == 256 then []
    else if lo as byte in keys then [lo as byte] + KeysFrom(keys, lo + 1)
    else KeysFrom(keys, lo + 1)
  }

  /** `types`: the registered tags, strictly ascending (BTreeMap key order). */
  function Types(m: Manager): (r: seq<byte>)
    ensures forall b :: b in r <==> b in m.services
    ensures forall i, j :: 0 <= i < j < |r| ==> r[i] < r[j]
  {
    KeysFrom(m.services.Keys, 0)
  }

  /** `default_type`. */
  function DefaultType(m: Manager): (t: byte)
    ensures Valid(m) ==> t in Types(m)
  {
    m.default
  }

  /** The adapter `get_tx` hands an address to, and the handle it passes:
      none for an empty address or an unregistered tag. */
  function Route(m: Manager, address: seq<byte>): (r: Option<(Adapter, seq<byte>)>)
    ensures r.Some? <==> |address| > 0 && address[0] in m.services
    ensures r.Some? ==> r.value == (m.services[address[0]], address[1..])
  {
    match Decode(address)
    case None => None
    case Some((tag, handle)) => if tag in m.services then Some((m.services[tag], handle)) else None
  }

  /** `DAServiceManager::get_tx`. `getTx` is the adapters' `get_tx`; `called`
      records the one call made, if any. */
  method GetTx(m: Manager, address: seq<byte>, getTx: (Adapter, seq<byte>) -> Result<seq<byte>>)
    returns (r: Result<seq<byte>>, called: Option<(Adapter, seq<byte>)>)
    ensures address == [] ==> r == Err(NoTypeByte) && called.None?
    ensures address != [] && address[0] !in m.services ==> r == Err(UnsupportedBackend) && called.None?
    ensures called == Route(m, address)
    ensures called.Some? ==> r == getTx(called.value.0, called.value.1)
  {
    if |address| == 0 {
      return Err(NoTypeByte), None;
    }
    var tag := address[0];
    if tag !in m.services {
      return Err(UnsupportedBackend), None;
    }
    var service := m.services[tag];
    called := Some((service, address[1..]));
    r := getTx(service, address[1..]);
  }

  /** What `DAServiceManager::set_tx(tx)` returns: the default adapter's
      `set_tx(tx)`, or an error when no adapter holds the default tag. */
  function Submit(m: Manager, tx: seq<byte>, setFullTx: (Adapter, seq<byte>) -> Result<seq<byte>>): (r: Result<seq<byte>>)
    ensures m.default !in m.services ==> r == Err(NoDefaultAdapter)
    ensures m.default in m.services ==> (r.Ok? <==> setFullTx(m.services[m.default], tx).Ok?)
    ensures Valid(m) && r.Ok? ==> |r.value| > 0 && r.value[0] == m.default
  {
    if m.default in m.services then
      var adapter := m.services[m.default];
      Tagged(adapter, setFullTx(adapter, tx))
    else Err(NoDefaultAdapter)
  }

  /** `DAServiceManager::set_tx`. `setFullTx` is the adapters' `set_full_tx`;
      `called` is the adapter it was invoked on and the payload it was handed. */
  method SetTx(m: Manager, tx: seq<byte>, setFullTx: (Adapter, seq<byte>) -> Result<seq<byte>>)
    returns (r: Result<seq<byte>>, called: Option<(Adapter, seq<byte>)>)
    ensures r == Submit(m, tx, setFullTx)
    ensures called.Some? <==> m.default in m.services
    ensures called.Some? ==> called.value == (m.services[m.default], tx)
  {
    if m.default !in m.services {
      return Err(NoDefaultAdapter), None;
    }
    var service := m.services[m.default];
    called := Some((service, tx));
    r := AdapterSetTx(service, setFullTx(service, tx));
  }

  /** On a valid manager, the address `set_tx(tx)` returns routes back to the
      default adapter with exactly the handle its `set_full_tx(tx)` produced. */
  lemma SubmitThenRoute(m: Manager, tx: seq<byte>, setFullTx: (Adapter, seq<byte>) -> Result<seq<byte>>)
    requires Valid(m)
    requires Submit(m, tx, setFullTx).Ok?
    ensures var adapter := m.services[m.default];
      && setFullTx(adapter, tx).Ok?
      && Route(m, Submit(m, tx, setFullTx).value) == Some((adapter, setFullTx(adapter, tx).value))
  {
    var adapter := m.services[m.default];
    AddressRoundTrip(adapter.TypeByte(), setFullTx(adapter, tx).value, []);
  }
}
