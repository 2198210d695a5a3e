# Microservice upgrade and rollback decisions, modelled in Dafny

This project models the decision logic an edge node uses to manage its installed
microservice definitions (`microservice/microservice.go`). It covers:

- turning a definition served by the exchange (the remote registry) into a node-local
  record (`ConvertToPersistent`);
- deciding whether a record may start an upgrade (`MicroserviceReadyForUpgrade`);
- detecting an upgrade that stalled before its containers started
  (`MicroserviceNeedsRollback`);
- choosing the definition to upgrade to (`GetUpgradeMicroserviceDef`) and the archived one
  to roll back to (`GetRollbackMicroserviceDef`);
- compiling node attributes into the policy that is sent downstream
  (`GenMicroservicePolicy`);
- decoding the reason codes recorded when an instance ends (`DecodeReasonCode`);
- rewriting the exchange registration list without one spec ref, which is the one
  decision inside `UnregisterMicroserviceExchange`.

Every collaborator the source calls is a parameter of the model:

- JSON marshalling: a function that may fail.
- The SHA3-256 digest: a function on bytes.
- The version-range parser: a function that may fail.
- The exchange lookup: a function from the query to a definition or an error.
- The bolt store query for archived definitions by spec ref, and the one by spec ref and
  version: functions from their keys to a list or an error.
- The store query for the instances of a definition's spec ref and version: its result (a
  list or an error) is an input of the eligibility decision.
- The attribute store: a function from the spec ref to the attributes or an error.
- Agreement-protocol conversion: a function that may fail.
- Policy generation: a function that may fail.
- The clock and the execution timeout: plain `uint64` parameters.

The events channel is an `Outbox` object whose `sent` sequence records every message sent.
Records are datatypes. Each loop of the source becomes a method, proved equal to a
specification function, and the properties are lemmas about those functions.

Modules: `Wrappers` (Option/Result), `Definitions` (records, `uint64`, errors),
`ReasonCodes`, `Conversion`, `Versions` (Go's `strings.Compare`), `Eligibility`,
`Rollback` (stall detection and rollback target), `Upgrade`, `PolicyGen` and
`Registration`.

Behaviours of the code that a reader might not expect, and which the model keeps:

- **Instances checked for live agreements.** An upgrade without draining agreements
  looks at the instances of the record's spec ref and version. Only those whose
  `MicroserviceDefId` equals the record's `Id` are considered.
- **Failed-attempt lookup.** Archived definitions are looked up by the candidate's spec
  ref and version. The record's `UpgradeNewMsId` must equal the archived `Id`, and the
  archived hash must equal the candidate's. The lookup is not by id alone.
- **Elapsed time.** The stall check subtracts `uint64` values, so a clock behind the start
  time wraps around.
- **Property mappings.** Only the last property attribute of each group takes effect. The
  mappings survive from the common pass into the specific one. If the specific group has
  no property attribute, the common mappings are written again at the end. They can then
  override a specific compute attribute's `cpus` or `ram`
  (`PolicyGen.CommonMappingsReapplied`, `PolicyGen.CommonCpusBeatSpecificCompute`).
- **Version order.** Versions are compared byte-wise, not by semantic-version precedence
  (`Versions.CompareIsNotNumeric`).

## Model

| member | source | states |
|---|---|---|
| `ReasonCodes.DecodeReasonCode` | microservice/microservice.go:31-48 | each of the codes 200-206 maps to its own description; the fixed "unknown reason code" text is returned exactly for every other code |
| `ReasonCodes.DecodeIsInjective` | microservice/microservice.go:33-47 | two codes with the same description are equal, unless both are unknown codes |
| `Conversion.ConvertToPersistent` | microservice/microservice.go:53-114 | the record built field by field, with its user-input and workload lists appended in a loop, equals the conversion `ToPersistent` |
| `Conversion.ConvertedDefinition` | microservice/microservice.go:53-114 | conversion fails exactly when marshalling fails, and then with that cause. On success, the exchange fields and the lists are copied element by element, `Org` is the given org, and the sharing mode is normalised. All upgrade timestamps and the failure reason are 0, the description, `UpgradeNewMsId` and `Name` are empty, the range is "0.0.0", `AutoUpgrade` is false and `ActiveUpgrade` is true. The hash is the digest of the serialisation |
| `Conversion.ToLower` | microservice/microservice.go:65 | lower-casing keeps the length and maps each character on its own. ASCII capitals move up by 32, the dotted capital I becomes 'i', the Kelvin sign becomes 'k', and every other character is kept |
| `Conversion.NormalizeSharable` | microservice/microservice.go:65-70 | the stored mode is always exclusive, single or multiple, and is either the lower-cased input or "exclusive" |
| `Conversion.SharableNormalised` | microservice/microservice.go:65-70 | the stored mode is always exclusive, single or multiple. It is the lower-cased input exactly when that names a mode, and "exclusive" otherwise. Normalising ignores case and is idempotent |
| `Conversion.NonAsciiCapitalsInModes` | microservice/microservice.go:65-70 | "S" + dotted capital I + "NGLE" is stored as "single" and "MULT" + dotted capital I + "PLE" as "multiple", as Go lower-cases them. A lone Kelvin sign is stored as "exclusive" |
| `Conversion.HashDependsOnSerialisationOnly` | microservice/microservice.go:105-111 | two definitions with equal serialisations get equal metadata hashes, whatever the org |
| `Eligibility.MicroserviceReadyForUpgrade` | microservice/microservice.go:117-152 | the ordered rules with the early-exit instance scan return exactly `ReadyForUpgrade`. That is: not archived, auto-upgrade on, not mid-upgrade, and either an active upgrade or a successful instance lookup in which no instance of this definition holds an agreement |
| `Eligibility.IneligibleCases` | microservice/microservice.go:120-151 | each rule alone refuses: archived; manual-only; mid-upgrade (start set, re-registration and failure unset); a store error in an inactive upgrade (fail closed); an instance of this definition with agreements. The first three rules passing with an active upgrade makes the record eligible |
| `Eligibility.OtherDefinitionsIgnored` | microservice/microservice.go:140-146 | inserting an instance of another definition id anywhere in the instance list never changes the answer |
| `Eligibility.ConvertedNotReady` | microservice/microservice.go:91-127 | a freshly converted record is not mid-upgrade and is never eligible, because auto-upgrade is off |
| `Eligibility.ConvertedReadyOnceAutomatic` | microservice/microservice.go:91-151 | turning auto-upgrade on for a freshly converted record makes it eligible |
| `Rollback.Sub64` | microservice/microservice.go:162 | uint64 subtraction: the plain difference when no wrap occurs, 2^64 plus the difference otherwise |
| `Rollback.NeedsRollback` | microservice/microservice.go:155-168 | a rollback is only ever reported for an upgrade that started and whose containers have not started executing, and never when the clock reads exactly the start time |
| `Rollback.NeedsRollbackIff` | microservice/microservice.go:155-168 | never when `UpgradeStartTime` is 0 or `UpgradeExecutionStartTime` is set. Otherwise exactly when the elapsed time, computed modulo 2^64, is strictly greater than the timeout, so an elapsed time equal to the timeout gives false |
| `Rollback.NeedsRollbackReadsTwoTimestamps` | microservice/microservice.go:158-164 | the answer depends only on the start and execution-start timestamps; `UpgradeFailedTime` and every other field are ignored |
| `Rollback.ClockBehindStart` | microservice/microservice.go:161-162 | with the clock behind the start time the elapsed time reads as 2^64 minus the gap, so the stall is reported for any timeout and gap below 2^63 |
| `Rollback.TimeoutBoundary` | microservice/microservice.go:160-164 | with start 1000 and timeout 300 a stall is reported at 1301 and not at 1300 |
| `Rollback.ConvertedNeverRollsBack` | microservice/microservice.go:91-159 | a freshly converted record never needs a rollback |
| `Rollback.GetRollbackMicroserviceDef` | microservice/microservice.go:212-226 | a store failure gives an error with that cause. Otherwise the result is the first archived definition whose `UpgradeNewMsId` is this record's id, or nothing when there is none; it never errors then and changes nothing |
| `Versions.Compare` | microservice/microservice.go:185 | the result of `strings.Compare` is -1, 0 or 1 |
| `Versions.CompareZeroIffEqual` | microservice/microservice.go:185-187 | `Compare` is 0 exactly for equal strings |
| `Versions.CompareAntisymmetric` | microservice/microservice.go:185-187 | swapping the arguments negates the result |
| `Versions.CompareIsLexicographic` | microservice/microservice.go:185 | `Compare` is negative exactly when the first string is a proper prefix of the second or is smaller at the first position where they differ |
| `Versions.CompareIsNotNumeric` | microservice/microservice.go:185 | "10" sorts before "9" and "1.10.0" before "1.9.0" |
| `Upgrade.GetUpgradeMicroserviceDef` | microservice/microservice.go:173-209 | the method, with its early-exit scan of archived definitions, returns exactly `UpgradeCandidate` |
| `Upgrade.UpgradeErrors` | microservice/microservice.go:177-182 | errors come first from range parsing, then the exchange lookup, then conversion, in that order and with their causes. Any other error is an archive-lookup error, and it occurs only when `UpgradeNewMsId` is set |
| `Upgrade.UpgradeSkipped` | microservice/microservice.go:185-199 | no upgrade when the candidate version is byte-wise smaller, or equal with an equal hash. When `UpgradeNewMsId` is set, a failed archive lookup by the candidate's spec ref and version is an error. An archived definition with that id and the candidate's hash means no upgrade |
| `Upgrade.UpgradeProposed` | microservice/microservice.go:185-207 | an upgrade is proposed exactly when none of the skip conditions holds and the archive lookup (if made) succeeds. The proposal is the converted candidate with only `Name`, `UpgradeVersionRange`, `AutoUpgrade` and `ActiveUpgrade` taken from the old record |
| `Upgrade.UpgradeIdempotent` | microservice/microservice.go:173-207 | asking again on behalf of the proposed definition proposes nothing, provided the exchange answers its query as it answered the first one |
| `PolicyGen.PartitionAttributes` | microservice/microservice.go:364-374 | the loop appends each attribute to the common group (no sensor URLs) or the specific group, giving `CommonOf` and `SpecificOf` |
| `PolicyGen.PartitionGroups` | microservice/microservice.go:367-374 | every common attribute has no sensor URLs and every specific one has some |
| `PolicyGen.PartitionSplits` | microservice/microservice.go:367-374 | together the two groups hold exactly the attributes of the list, each as often as it occurs |
| `PolicyGen.CommonKeepsOrder` | microservice/microservice.go:367-374 | the common group keeps list order: the group of a concatenation is the concatenation of the groups |
| `PolicyGen.SpecificKeepsOrder` | microservice/microservice.go:367-374 | the specific group keeps list order in the same sense |
| `PolicyGen.HandleServiceAttributes` | microservice/microservice.go:314-357 | the handler's attribute loop followed by the merge of the last mappings returns exactly `HandlePass` |
| `PolicyGen.AddProperties` | microservice/microservice.go:351-356 | after the key loop the bag has the keys of both maps. A mapped key has the mapping's value, and every other key keeps its value |
| `PolicyGen.LastComputeWins` | microservice/microservice.go:317-320 | within one group, the bag gains exactly the "cpus" and "ram" entries of the last compute attribute |
| `PolicyGen.LastWriterWins` | microservice/microservice.go:315-348 | within one group, the last attribute of each kind decides architecture, HA partners, metering, counterparty properties, property mappings and protocols. A field that no attribute of the group sets keeps its value |
| `PolicyGen.MergeAddsMappings` | microservice/microservice.go:351-356 | the merge adds the mappings to the bag and changes nothing else |
| `PolicyGen.PassProps` | microservice/microservice.go:314-357 | after one pass, the bag is the old bag overlaid with the last compute entries and then with the mappings in force |
| `PolicyGen.FirstPassProps` | microservice/microservice.go:377 | after the common pass, the bag is the last common compute entries overlaid with the last common mappings |
| `PolicyGen.CompiledFields` | microservice/microservice.go:376-378 | each typed field comes from the last specific attribute of its kind, else the last common one, else stays zero |
| `PolicyGen.CompiledProps` | microservice/microservice.go:308-378 | the compiled bag is exactly `ExpectedProps`: common compute entries, then common mappings, then specific compute entries, then the mappings in force after both passes |
| `PolicyGen.SpecificPropertyWins` | microservice/microservice.go:338-356 | a key mapped by the last specific property attribute gets that value in the compiled bag |
| `PolicyGen.CommonMappingsReapplied` | microservice/microservice.go:351-356 | with no specific property attribute, every key of the last common mappings gets the common value, even over a specific compute attribute |
| `PolicyGen.SpecificComputeWins` | microservice/microservice.go:317-356 | the last specific compute attribute decides "cpus" and "ram" unless the mappings in force name them |
| `PolicyGen.CommonComputeSurvives` | microservice/microservice.go:317-356 | with no specific compute attribute, the common "cpus" and "ram" survive unless a mapping names them |
| `PolicyGen.CommonCpusBeatSpecificCompute` | microservice/microservice.go:351-378 | one common mapping of "cpus" and one specific compute attribute give the common "cpus" and the specific "ram" |
| `PolicyGen.MaxAgreements` | microservice/microservice.go:386-389 | the agreement limit is 1 or 2, and 1 for an exclusive mode |
| `PolicyGen.MaxAgreementsByMode` | microservice/microservice.go:386-389 | 2 agreements exactly for "single" and "multiple", 1 otherwise. For a normalised mode that means 1 exactly when it is "exclusive" |
| `PolicyGen.CompileOutcome` | microservice/microservice.go:359-395 | errors come from the attribute store, then protocol conversion, then policy generation, in that order. A compiled policy carries the record's spec ref, org, name and version, the compiled fields, the converted protocols and the agreement limit of its sharing mode |
| `PolicyGen.Outbox.Send` | microservice/microservice.go:394 | sending appends the message to what was sent |
| `PolicyGen.GenMicroservicePolicy` | microservice/microservice.go:301-399 | on success exactly one message, carrying the compiled policy, is sent and no error is returned. On any error that error is returned and nothing is sent |
| `Registration.RemoveRegistration` | microservice/microservice.go:421-426 | the loop builds exactly `WithoutUrl`, the registrations whose URL is not the spec ref |
| `Registration.WithoutUrlDropsExactly` | microservice/microservice.go:421-426 | no registration of the spec ref remains, and every other registration is kept as often as it occurs |
| `Registration.WithoutUrlKeepsOrder` | microservice/microservice.go:421-426 | order is kept: filtering a concatenation filters each part |
| `Registration.WithoutUrlUnchanged` | microservice/microservice.go:421-426 | a list without registrations of the spec ref comes back unchanged |
| `Registration.WithoutUrlIdempotent` | microservice/microservice.go:421-426 | removing a spec ref twice is the same as removing it once |

## Left out

- `RemoveMicroservicePolicy` and `RestoreMicroservicePolicyFile`. They only drive the
  foreign policy manager and rename policy files on disk. `policy.PolicyManager` and the
  file system are not part of this model.
- `getExchangeDevice` and the rest of `UnregisterMicroserviceExchange`. These are the
  device lookup, the HTTP GET and PUT, and the retry loop that sleeps 10 seconds on
  transport errors. Only the filter of the registration list is modelled.
- `json.Marshal` and `sha3.Sum256`. They are parameters: serialisation may fail, and the
  digest is an arbitrary function of the bytes.
- The bolt store queries and their filters (`FindMicroserviceInstances`,
  `FindMicroserviceDefs`, `FindApplicableAttributes`). Their results are inputs that are
  assumed already filtered. The model does not check that filtering.
- `policy.Version_Expression_Factory`, `exchange.GetMicroservice`,
  `policy.ConvertToAgreementProtocolList` and `policy.GeneratePolicy`. These are parameters
  that succeed or fail. The exchange query carries the spec ref, org, expression and arch.
  Generation receives the compiled policy record together with the policy path and the
  device org.
- The clock and `config.MICROSERVICE_EXEC_TIMEOUT` are parameters of `Rollback.NeedsRollback`.
- The `glog` logging is omitted.
- The channel is not a concurrency primitive here. Sending appends to `Outbox.sent`, and
  the model does not capture blocking on the send.
- `strconv.FormatInt` for the compute values. Compute values, and all property values
  (`interface{}` in the source), are kept as already-formatted strings.
- The type assertion on the agreement protocols (line 343). It panics on a value that is
  not a list; here the protocols are always a list of names.
- Conversion.ToLower: it maps only the ASCII capitals, the dotted capital I and the Kelvin
  sign. These are the capitals whose Go lower case is an ASCII letter. Go's
  `strings.ToLower` also lower-cases other non-ASCII letters, which the model keeps as they
  are. The stored sharing mode is unaffected, because such a letter can never be part of a
  mode name.
- Errors are values that carry the spec ref, version, range and collaborator cause the
  source formats into its messages. The message text is not modelled. Two values are also
  left out of the errors: the exchange definition printed when serialisation fails
  (line 107), and the raw protocol list printed when protocol conversion fails (line 382).
- MicroserviceInstance keeps only the definition id and the agreement list, which are the
  fields the decision reads. The instance's spec ref, version and archived flag are used only
  by the store query. Its filtering is taken as done.
- The model does not distinguish a `nil` slice or map from an empty one. The source treats
  both the same at every place modelled.
- The record-store invariants of the system are not modelled: at most one unarchived
  definition per spec ref, org and arch, and monotonic upgrade timestamps. They are kept by
  callers outside this file.
