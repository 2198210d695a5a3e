/**
 * Conversion of a registry-side definition into a node-local record: fields copied,
 * sharing mode normalised, upgrade bookkeeping reset, and the metadata hash stored.
 */
module Conversion {
  import opened Wrappers
  import opened Definitions

  const EXCLUSIVE: string := "exclusive"
  const SINGLE: string := "single"
  const MULTIPLE: string := "multiple"

  /** Serialisation of a registry-side definition (json.Marshal); it may fail. */
  type Marshal = ExchangeDefinition -> Result<seq<byte>, string>

  /** The digest stored as the metadata hash (sha3.Sum256). */
  type Digest = seq<byte> -> seq<byte>

  predicate IsSharingMode(s: string) {
    s == EXCLUSIVE || s == SINGLE || s == MULTIPLE
  }

  /**
   * unicode.ToLower of one character, for every capital whose lower case is an ASCII letter:
   * the ASCII capitals, LATIN CAPITAL LETTER I WITH DOT ABOVE (to 'i') and KELVIN SIGN (to
   * 'k'). Other characters are kept.
   */
  function LowerChar(c: char): (r: char)
    ensures !('A' <= r <= 'Z')
    ensures 'A' <= c <= 'Z' ==> r as int == c as int + 32
    ensures c == '\U{0130}' ==> r == 'i'
    ensures c == '\U{212A}' ==> r == 'k'
    ensures !('A' <= c <= 'Z') && c != '\U{0130}' && c != '\U{212A}' ==> r == c
  {
    if 'A' <= c <= 'Z' then (c as int - 'A' as int + 'a' as int) as char
    else if c == '\U{0130}' then 'i'
    else if c == '\U{212A}' then 'k'
    else c
  }

  /** strings.ToLower, character by character. */
  function ToLower(s: string): (r: string)
    ensures |r| == |s|
    ensures forall i :: 0 <= i < |s| ==> r[i] == LowerChar(s[i])
  {
    seq(|s|, i requires 0 <= i < |s| => LowerChar(s[i]))
  }

  lemma ToLowerIdempotent(s: string)
    ensures ToLower(ToLower(s)) == ToLower(s)
  {
    var t := ToLower(s);
    assert forall i :: 0 <= i < |t| ==> LowerChar(t[i]) == t[i];
  }

  /** The stored sharing mode: the lower-cased input if it names a mode, "exclusive" otherwise. */
  function NormalizeSharable(s: string): (r: string)
    ensures IsSharingMode(r)
    ensures r == ToLower(s) || r == EXCLUSIVE
  {
    var lower := ToLower(s);
    if IsSharingMode(lower) then lower else EXCLUSIVE
  }

  /**
   * The stored sharing mode is always one of the three modes; it is the lower-cased input
   * exactly when that names a mode; the normalisation ignores case and is idempotent.
   */
  lemma SharableNormalised(s: string)
    ensures IsSharingMode(NormalizeSharable(s))
    ensures NormalizeSharable(s) == ToLower(s) <==> IsSharingMode(ToLower(s))
    ensures !IsSharingMode(ToLower(s)) ==> NormalizeSharable(s) == EXCLUSIVE
    ensures NormalizeSharable(ToLower(s)) == NormalizeSharable(s)
    ensures NormalizeSharable(NormalizeSharable(s)) == NormalizeSharable(s)
  {
    ToLowerIdempotent(s);
    assert ToLower(EXCLUSIVE) == EXCLUSIVE;
  }

  /**
   * Capitals outside ASCII that Go lower-cases to an ASCII letter are recognised: a dotted
   * capital I spells "single", and a mode spelled with the Kelvin sign stays unrecognised
   * because no mode contains a 'k'.
   */
  lemma NonAsciiCapitalsInModes()
    ensures NormalizeSharable("S\U{0130}NGLE") == SINGLE
    ensures NormalizeSharable("MULT\U{0130}PLE") == MULTIPLE
    ensures NormalizeSharable("\U{212A}") == EXCLUSIVE
  {
    assert ToLower("S\U{0130}NGLE") == SINGLE;
    assert ToLower("MULT\U{0130}PLE") == MULTIPLE;
  }

  function NewHardwareMatch(hw: ExchangeHardwareMatch): HardwareMatch {
    HardwareMatch(hw.usbDeviceIds, hw.devfiles)
  }

  function NewUserInput(ui: ExchangeUserInput): UserInput {
    UserInput(ui.name, ui.labelText, ui.inputType, ui.defaultValue)
  }

  function NewWorkloadDeployment(wl: ExchangeWorkload): WorkloadDeployment {
    WorkloadDeployment(wl.deployment, wl.deploymentSignature, wl.torrent)
  }

  function UserInputsOf(uis: seq<ExchangeUserInput>): seq<UserInput> {
    seq(|uis|, i requires 0 <= i < |uis| => NewUserInput(uis[i]))
  }

  function WorkloadsOf(wls: seq<ExchangeWorkload>): seq<WorkloadDeployment> {
    seq(|wls|, i requires 0 <= i < |wls| => NewWorkloadDeployment(wls[i]))
  }

  /** The zero value of a record, as Go's `new` gives it. */
  const ZeroDefinition: MicroserviceDefinition := MicroserviceDefinition(
    "", "", "", "", "", "", "", "", "", "", HardwareMatch("", ""), [], [], "",
    false, "", 0, 0, 0, 0, 0, 0, 0, "", "", "", false, false, [])

  /** The record ConvertToPersistent yields for `ems` installed under `org`. */
  function ToPersistent(ems: ExchangeDefinition, org: string, marshal: Marshal, sum256: Digest)
    : Result<MicroserviceDefinition, Error>
  {
    match marshal(ems)
    case Failure(cause) => Failure(MarshalFailed(cause))
    case Success(serial) =>
      Success(ZeroDefinition.(
        owner := ems.owner,
        labelText := ems.labelText,
        description := ems.description,
        specRef := ems.specRef,
        org := org,
        version := ems.version,
        arch := ems.arch,
        downloadUrl := ems.downloadUrl,
        sharable := NormalizeSharable(ems.sharable),
        matchHardware := NewHardwareMatch(ems.matchHardware),
        userInputs := UserInputsOf(ems.userInputs),
        workloads := WorkloadsOf(ems.workloads),
        lastUpdated := ems.lastUpdated,
        upgradeVersionRange := "0.0.0",
        activeUpgrade := true,
        metadataHash := sum256(serial)))
  }

  /** A record with no upgrade history and the default upgrade configuration. */
  predicate AtRest(d: MicroserviceDefinition) {
    && d.upgradeStartTime == 0 && d.upgradeMsUnregisteredTime == 0
    && d.upgradeAgreementsClearedTime == 0 && d.upgradeExecutionStartTime == 0
    && d.upgradeMsReregisteredTime == 0 && d.upgradeFailedTime == 0
    && d.ungradeFailureReason == 0 && d.ungradeFailureDescription == ""
    && d.upgradeNewMsId == "" && d.name == "" && d.upgradeVersionRange == "0.0.0"
    && !d.autoUpgrade && d.activeUpgrade && !d.archived && d.id == ""
  }

  /**
   * Conversion fails exactly when serialisation fails. Otherwise it copies the registry
   * fields, installs the record under the given org, normalises the sharing mode, resets all
   * upgrade bookkeeping, and stores the digest of the serialisation as the metadata hash.
   */
  lemma ConvertedDefinition(ems: ExchangeDefinition, org: string, marshal: Marshal, sum256: Digest)
    ensures ToPersistent(ems, org, marshal, sum256).Failure? <==> marshal(ems).Failure?
    ensures marshal(ems).Failure? ==>
      ToPersistent(ems, org, marshal, sum256).error == MarshalFailed(marshal(ems).error)
    ensures ToPersistent(ems, org, marshal, sum256).Success? ==>
      var d := ToPersistent(ems, org, marshal, sum256).value;
      && AtRest(d)
      && IsSharingMode(d.sharable)
      && (IsSharingMode(ToLower(ems.sharable)) ==> d.sharable == ToLower(ems.sharable))
      && (!IsSharingMode(ToLower(ems.sharable)) ==> d.sharable == EXCLUSIVE)
      && d.org == org && d.specRef == ems.specRef && d.version == ems.version
      && d.arch == ems.arch && d.owner == ems.owner && d.labelText == ems.labelText
      && d.description == ems.description && d.downloadUrl == ems.downloadUrl
      && d.lastUpdated == ems.lastUpdated
      && d.matchHardware == HardwareMatch(ems.matchHardware.usbDeviceIds, ems.matchHardware.devfiles)
      && |d.userInputs| == |ems.userInputs| && |d.workloads| == |ems.workloads|
      && (forall i :: 0 <= i < |ems.userInputs| ==>
            d.userInputs[i].name == ems.userInputs[i].name
            && d.userInputs[i].labelText == ems.userInputs[i].labelText
            && d.userInputs[i].inputType == ems.userInputs[i].inputType
            && d.userInputs[i].defaultValue == ems.userInputs[i].defaultValue)
      && (forall i :: 0 <= i < |ems.workloads| ==>
            d.workloads[i].deployment == ems.workloads[i].deployment
            && d.workloads[i].deploymentSignature == ems.workloads[i].deploymentSignature
            && d.workloads[i].torrent == ems.workloads[i].torrent)
      && d.metadataHash == sum256(marshal(ems).value)
  {
    SharableNormalised(ems.sharable);
  }

  /**
   * Two registry definitions that serialise to the same bytes get the same metadata hash;
   * the hash sees nothing but the serialisation.
   */
  lemma HashDependsOnSerialisationOnly(e1: ExchangeDefinition, e2: ExchangeDefinition, org1: string, org2: string,
                                       marshal: Marshal, sum256: Digest)
    requires marshal(e1) == marshal(e2) && marshal(e1).Success?
    ensures ToPersistent(e1, org1, marshal, sum256).value.metadataHash
         == ToPersistent(e2, org2, marshal, sum256).value.metadataHash
  {
  }

  /** ConvertToPersistent: the record is built field by field and the lists by appending. */
  method ConvertToPersistent(ems: ExchangeDefinition, org: string, marshal: Marshal, sum256: Digest)
    returns (r: Result<MicroserviceDefinition, Error>)
    ensures r == ToPersistent(ems, org, marshal, sum256)
  {
    var pms := ZeroDefinition;
    pms := pms.(owner := ems.owner, labelText := ems.labelText, description := ems.description,
                specRef := ems.specRef, org := org, version := ems.version, arch := ems.arch,
                downloadUrl := ems.downloadUrl);

    pms := pms.(sharable := ToLower(ems.sharable));
    if !IsSharingMode(pms.sharable) {
      pms := pms.(sharable := EXCLUSIVE);
    }
    assert pms.sharable == NormalizeSharable(ems.sharable);

    pms := pms.(matchHardware := NewHardwareMatch(ems.matchHardware));

    var userInputs: seq<UserInput> := [];
    for i := 0 to |ems.userInputs|
      invariant |userInputs| == i
      invariant forall k :: 0 <= k < i ==> userInputs[k] == NewUserInput(ems.userInputs[k])
    {
      userInputs := userInputs + [NewUserInput(ems.userInputs[i])];
    }
    assert userInputs == UserInputsOf(ems.userInputs);
    pms := pms.(userInputs := userInputs);

    var workloads: seq<WorkloadDeployment> := [];
    for i := 0 to |ems.workloads|
      invariant |workloads| == i
      invariant forall k :: 0 <= k < i ==> workloads[k] == NewWorkloadDeployment(ems.workloads[k])
    {
      workloads := workloads + [NewWorkloadDeployment(ems.workloads[i])];
    }
    assert workloads == WorkloadsOf(ems.workloads);
    pms := pms.(workloads := workloads, lastUpdated := ems.lastUpdated);

    // defaults of the upgrade bookkeeping
    pms := pms.(upgradeStartTime := 0, upgradeMsUnregisteredTime := 0,
                upgradeAgreementsClearedTime := 0, upgradeExecutionStartTime := 0,
                upgradeFailedTime := 0, ungradeFailureReason := 0,
                ungradeFailureDescription := "", upgradeNewMsId := "");
    pms := pms.(name := "", upgradeVersionRange := "0.0.0", autoUpgrade := false, activeUpgrade := true);

    var serial := marshal(ems);
    if serial.Failure? {
      return Failure(MarshalFailed(serial.error));
    }
    pms := pms.(metadataHash := sum256(serial.value));
    r := Success(pms);
  }
}
