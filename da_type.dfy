/** `DaType`: the closed enumeration of backend kinds, each with a fixed tag
    byte, its textual name, and the compile-time feature gating that decides
    which variants exist in a build. */
module DaTypes {
  import opened Common

  /** All variants in declaration order; each exists only when its cargo
      feature is enabled. */
  datatype DaType = File | Ipfs | Celestia | Greenfield | Ethereum {

    /** `type_byte`: the enum discriminant as a `u8`. */
    function TypeByte(): (b: byte)
      ensures b as int < |Declared|
    {
      match this
      case File => 0
      case Ipfs => 1
      case Celestia => 2
      case Greenfield => 3
      case Ethereum => 4
    }

    /** The string `from_str` maps to this variant. */
    function Name(): string {
      match this
      case File => "file"
      case Ipfs => "ipfs"
      case Celestia => "celestia"
      case Greenfield => "greenfield"
      case Ethereum => "ethereum"
    }
  }

  const Declared: seq<DaType> := [File, Ipfs, Celestia, Greenfield, Ethereum]

  /** The feature set of this build: `file`, `ipfs`, `celestia`, `greenfield`
      (the modules the crate root compiles); `ethereum` is off. */
  const Features: set<DaType> := {File, Ipfs, Celestia, Greenfield}

  /** The tag byte is the variant's index in declaration order, so distinct
      variants have distinct tag bytes. */
  lemma TypeByteIsPosition(d: DaType)
    ensures Declared[d.TypeByte()] == d
  {
  }

  lemma TypeByteInjective(a: DaType, b: DaType)
    ensures a.TypeByte() == b.TypeByte() <==> a == b
  {
    TypeByteIsPosition(a);
    TypeByteIsPosition(b);
  }

  /** `Default::default` under a given set of enabled variants: each enabled
      variant's `let _default` shadows the previous one, so the last enabled
      variant in declaration order wins. */
  function DefaultAmong(enabled: set<DaType>): (d: DaType)
    requires enabled != {}
    ensures d in enabled
    ensures forall i :: d.TypeByte() as int < i < |Declared| ==> Declared[i] !in enabled
  {
    if Ethereum in enabled then Ethereum
    else if Greenfield in enabled then Greenfield
    else if Celestia in enabled then Celestia
    else if Ipfs in enabled then Ipfs
    else assert forall x :: x in enabled ==> x == File; File
  }

  /** `Default::default` in this build. */
  function Default(): (d: DaType)
    ensures d == Greenfield && d.TypeByte() == 3
  {
    DefaultAmong(Features)
  }

  /** `FromStr::from_str` under a given set of enabled variants: an exact,
      case-sensitive match against the names of the enabled variants. */
  function FromStrIn(enabled: set<DaType>, s: string): (r: Result<DaType>)
    ensures r.Ok? ==> r.value in enabled && r.value.Name() == s
    ensures r.Err? ==> r.error == UnknownDaType
  {
    if s == "file" && File in enabled then Ok(File)
    else if s == "ipfs" && Ipfs in enabled then Ok(Ipfs)
    else if s == "celestia" && Celestia in enabled then Ok(Celestia)
    else if s == "greenfield" && Greenfield in enabled then Ok(Greenfield)
    else if s == "ethereum" && Ethereum in enabled then Ok(Ethereum)
    else Err(UnknownDaType)
  }

  /** `FromStr::from_str` in this build. */
  function FromStr(s: string): (r: Result<DaType>)
    ensures r.Ok? ==> r.value in Features && r.value.Name() == s && r.value != Ethereum
    ensures r.Err? ==> r.error == UnknownDaType
  {
    FromStrIn(Features, s)
  }

  /** `from_str` accepts exactly the names of the enabled variants. */
  lemma FromStrInExact(enabled: set<DaType>, s: string)
    ensures FromStrIn(enabled, s).Ok? <==> exists d :: d in enabled && d.Name() == s
    ensures forall d :: d in enabled ==> FromStrIn(enabled, d.Name()) == Ok(d)
  {
    if exists d :: d in enabled && d.Name() == s {
      var d :| d in enabled && d.Name() == s;
      match d
      case File =>
      case Ipfs =>
      case Celestia =>
      case Greenfield =>
      case Ethereum =>
    }
  }

  /** In this build the four enabled names parse; "ethereum" and every other
      string, including other capitalisations, are rejected. */
  lemma FromStrInThisBuild(s: string)
    ensures FromStr(s).Ok? <==> s in {"file", "ipfs", "celestia", "greenfield"}
    ensures FromStr("file") == Ok(File) && FromStr("greenfield") == Ok(Greenfield)
    ensures FromStr("ethereum").Err? && FromStr("File").Err?
  {
    FromStrInExact(Features, s);
    if s in {"file", "ipfs", "celestia", "greenfield"} {
      assert s == "file" || s == "ipfs" || s == "celestia" || s == "greenfield";
    }
  }
}
