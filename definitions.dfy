/**
 * The records the upgrade engine works on: a microservice definition as the exchange
 * (the remote registry) serves it, the node-local persistent record made from it, the
 * running instances that reference a record, and the errors of the engine.
 */
module Definitions {

  const UINT64_MODULUS: int := 0x1_0000_0000_0000_0000

  /** Go's `uint64`: timestamps in seconds and reason codes. */
  type uint64 = x: int | 0 <= x < UINT64_MODULUS

  type byte = b: int | 0 <= b < 256

  // ---- registry side (exchange.MicroserviceDefinition and its parts) ----

  datatype ExchangeHardwareMatch = ExchangeHardwareMatch(usbDeviceIds: string, devfiles: string)

  datatype ExchangeUserInput =
    ExchangeUserInput(name: string, labelText: string, inputType: string, defaultValue: string)

  datatype ExchangeWorkload =
    ExchangeWorkload(deployment: string, deploymentSignature: string, torrent: string)

  datatype ExchangeDefinition = ExchangeDefinition(
    owner: string,
    labelText: string,
    description: string,
    specRef: string,
    version: string,
    arch: string,
    sharable: string,
    downloadUrl: string,
    matchHardware: ExchangeHardwareMatch,
    userInputs: seq<ExchangeUserInput>,
    workloads: seq<ExchangeWorkload>,
    lastUpdated: string)

  // ---- node side (persistence.MicroserviceDefinition and its parts) ----

  datatype HardwareMatch = HardwareMatch(usbDeviceIds: string, devfiles: string)

  datatype UserInput =
    UserInput(name: string, labelText: string, inputType: string, defaultValue: string)

  datatype WorkloadDeployment =
    WorkloadDeployment(deployment: string, deploymentSignature: string, torrent: string)

  /**
   * One installed definition. The upgrade timestamps are 0 while the phase they mark has
   * not been reached. `upgradeNewMsId` is set on an old record once a successor is chosen.
   * The two `ungrade…` fields keep the source's spelling.
   */
  datatype MicroserviceDefinition = MicroserviceDefinition(
    id: string,
    owner: string,
    labelText: string,
    description: string,
    specRef: string,
    org: string,
    version: string,
    arch: string,
    sharable: string,
    downloadUrl: string,
    matchHardware: HardwareMatch,
    userInputs: seq<UserInput>,
    workloads: seq<WorkloadDeployment>,
    lastUpdated: string,
    archived: bool,
    name: string,
    upgradeStartTime: uint64,
    upgradeMsUnregisteredTime: uint64,
    upgradeAgreementsClearedTime: uint64,
    upgradeExecutionStartTime: uint64,
    upgradeMsReregisteredTime: uint64,
    upgradeFailedTime: uint64,
    ungradeFailureReason: uint64,
    ungradeFailureDescription: string,
    upgradeNewMsId: string,
    upgradeVersionRange: string,
    autoUpgrade: bool,
    activeUpgrade: bool,
    metadataHash: seq<byte>)

  /**
   * A running instance of a definition, with the fields the upgrade decision reads: the
   * definition it runs and its agreements (a non-empty list means it is bound).
   */
  datatype MicroserviceInstance = MicroserviceInstance(
    microserviceDefId: string,
    associatedAgreements: seq<string>)

  /** The errors the engine returns; `cause` is the collaborator's own error text. */
  datatype Error =
    | MarshalFailed(cause: string)
    | InvalidVersionRange(versionRange: string, cause: string)
    | RegistryFailed(specRef: string, versionRange: string, cause: string)
    | ConversionFailed(specRef: string, inner: Error)
    | ArchivedLookupFailed(specRef: string, version: string, cause: string)
    | RollbackLookupFailed(specRef: string, cause: string)
    | AttributeLookupFailed(specRef: string, cause: string)
    | ProtocolListFailed(cause: string)
    | PolicyGenerationFailed(specRef: string, version: string, cause: string)
}
