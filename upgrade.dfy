/**
 * Resolution of the definition an installed one should upgrade to: the version range is
 * resolved by the registry, the answer converted, and then dropped when it is a downgrade,
 * unchanged, or an attempt that already failed.
 */
module Upgrade {
  import opened Wrappers
  import opened Definitions
  import opened Conversion
  import opened Versions

  /** The registry request for the highest version of a spec ref matching an expression. */
  datatype VersionQuery = VersionQuery(specRef: string, org: string, versionExpression: string, arch: string)

  /** Parsing of a version range into the expression sent to the registry. */
  type RangeParser = string -> Result<string, string>

  /** The registry's answer to a query. */
  type Registry = VersionQuery -> Result<ExchangeDefinition, string>

  /** The archived definitions with a given spec ref and version, as the store returns them. */
  type ArchivedByUrlVersion = (string, string) -> Result<seq<MicroserviceDefinition>, string>

  function QueryFor(d: MicroserviceDefinition, expression: string): VersionQuery {
    VersionQuery(d.specRef, d.org, expression, d.arch)
  }

  /** The candidate with the node-local upgrade choices of the old definition carried over. */
  function CarryForward(previous: MicroserviceDefinition, candidate: MicroserviceDefinition): MicroserviceDefinition {
    candidate.(name := previous.name, upgradeVersionRange := previous.upgradeVersionRange,
               autoUpgrade := previous.autoUpgrade, activeUpgrade := previous.activeUpgrade)
  }

  /** An archived record shows that the upgrade to this very content was tried and failed. */
  predicate FailedBefore(d: MicroserviceDefinition, archived: MicroserviceDefinition, candidate: MicroserviceDefinition) {
    d.upgradeNewMsId == archived.id && archived.metadataHash == candidate.metadataHash
  }

  predicate AttemptedBefore(d: MicroserviceDefinition, defs: seq<MicroserviceDefinition>, candidate: MicroserviceDefinition) {
    exists k :: 0 <= k < |defs| && FailedBefore(d, defs[k], candidate)
  }

  /** What GetUpgradeMicroserviceDef returns: an error, no upgrade (`None`), or the new definition. */
  function UpgradeCandidate(d: MicroserviceDefinition, parseRange: RangeParser, registry: Registry,
                            marshal: Marshal, sum256: Digest, archivedAt: ArchivedByUrlVersion)
    : Result<Option<MicroserviceDefinition>, Error>
  {
    match parseRange(d.upgradeVersionRange)
    case Failure(cause) => Failure(InvalidVersionRange(d.upgradeVersionRange, cause))
    case Success(expression) =>
      match registry(QueryFor(d, expression))
      case Failure(cause) => Failure(RegistryFailed(d.specRef, d.upgradeVersionRange, cause))
      case Success(ems) =>
        match ToPersistent(ems, d.org, marshal, sum256)
        case Failure(inner) => Failure(ConversionFailed(d.specRef, inner))
        case Success(candidate) =>
          if Compare(ems.version, d.version) < 0 then Success(None)
          else if Compare(ems.version, d.version) == 0 && d.metadataHash == candidate.metadataHash then Success(None)
          else if d.upgradeNewMsId != "" then
            match archivedAt(candidate.specRef, candidate.version)
            case Failure(cause) => Failure(ArchivedLookupFailed(d.specRef, d.version, cause))
            case Success(defs) =>
              if AttemptedBefore(d, defs, candidate) then Success(None)
              else Success(Some(CarryForward(d, candidate)))
          else Success(Some(CarryForward(d, candidate)))
  }

  /** GetUpgradeMicroserviceDef, with the archived definitions scanned by an early-exit loop. */
  method GetUpgradeMicroserviceDef(d: MicroserviceDefinition, parseRange: RangeParser, registry: Registry,
                                   marshal: Marshal, sum256: Digest, archivedAt: ArchivedByUrlVersion)
    returns (r: Result<Option<MicroserviceDefinition>, Error>)
    ensures r == UpgradeCandidate(d, parseRange, registry, marshal, sum256, archivedAt)
  {
    var vExp := parseRange(d.upgradeVersionRange);
    if vExp.Failure? {
      return Failure(InvalidVersionRange(d.upgradeVersionRange, vExp.error));
    }
    var found := registry(QueryFor(d, vExp.value));
    if found.Failure? {
      return Failure(RegistryFailed(d.specRef, d.upgradeVersionRange, found.error));
    }
    var ems := found.value;
    var converted := ConvertToPersistent(ems, d.org, marshal, sum256);
    if converted.Failure? {
      return Failure(ConversionFailed(d.specRef, converted.error));
    }
    var newDef := converted.value;

    if Compare(ems.version, d.version) < 0 {
      return Success(None);
    } else if Compare(ems.version, d.version) == 0 && d.metadataHash == newDef.metadataHash {
      return Success(None); // no change
    } else if d.upgradeNewMsId != "" {
      var archived := archivedAt(newDef.specRef, newDef.version);
      if archived.Failure? {
        return Failure(ArchivedLookupFailed(d.specRef, d.version, archived.error));
      }
      var defs := archived.value;
      for i := 0 to |defs|
        invariant forall k :: 0 <= k < i ==> !FailedBefore(d, defs[k], newDef)
      {
        if d.upgradeNewMsId == defs[i].id && defs[i].metadataHash == newDef.metadataHash {
          return Success(None); // this upgrade failed before
        }
      }
    }

    newDef := newDef.(name := d.name);
    newDef := newDef.(upgradeVersionRange := d.upgradeVersionRange);
    newDef := newDef.(autoUpgrade := d.autoUpgrade);
    newDef := newDef.(activeUpgrade := d.activeUpgrade);
    r := Success(Some(newDef));
  }

  /**
   * Errors come from the range parser, the registry and the conversion, checked in that
   * order, and otherwise only from the archive lookup, which is made only when the old
   * definition names a successor.
   */
  lemma UpgradeErrors(d: MicroserviceDefinition, parseRange: RangeParser, registry: Registry,
                      marshal: Marshal, sum256: Digest, archivedAt: ArchivedByUrlVersion)
    ensures var r := UpgradeCandidate(d, parseRange, registry, marshal, sum256, archivedAt);
      && (parseRange(d.upgradeVersionRange).Failure? ==>
            r == Failure(InvalidVersionRange(d.upgradeVersionRange, parseRange(d.upgradeVersionRange).error)))
      && (parseRange(d.upgradeVersionRange).Success? ==>
            var q := QueryFor(d, parseRange(d.upgradeVersionRange).value);
            && (registry(q).Failure? ==> r == Failure(RegistryFailed(d.specRef, d.upgradeVersionRange, registry(q).error)))
            && (registry(q).Success? && marshal(registry(q).value).Failure? ==>
                  r == Failure(ConversionFailed(d.specRef, MarshalFailed(marshal(registry(q).value).error))))
            && (registry(q).Success? && marshal(registry(q).value).Success? && r.Failure? ==>
                  d.upgradeNewMsId != "" && r.error.ArchivedLookupFailed?))
  {
  }

  /** The registry answer and its converted record, when the first three steps succeed. */
  predicate Resolved(d: MicroserviceDefinition, parseRange: RangeParser, registry: Registry,
                     marshal: Marshal, sum256: Digest, ems: ExchangeDefinition, candidate: MicroserviceDefinition) {
    && parseRange(d.upgradeVersionRange).Success?
    && registry(QueryFor(d, parseRange(d.upgradeVersionRange).value)) == Success(ems)
    && ToPersistent(ems, d.org, marshal, sum256) == Success(candidate)
  }

  /**
   * No upgrade to a version that sorts before the current one, nor to the same version with
   * the same metadata hash; and, when the old definition names a successor, no retry of an
   * archived attempt with the candidate's hash, while a failing archive lookup is an error.
   */
  lemma UpgradeSkipped(d: MicroserviceDefinition, parseRange: RangeParser, registry: Registry,
                       marshal: Marshal, sum256: Digest, archivedAt: ArchivedByUrlVersion,
                       ems: ExchangeDefinition, candidate: MicroserviceDefinition)
    requires Resolved(d, parseRange, registry, marshal, sum256, ems, candidate)
    ensures var r := UpgradeCandidate(d, parseRange, registry, marshal, sum256, archivedAt);
      && (Compare(ems.version, d.version) < 0 ==> r == Success(None))
      && (ems.version == d.version && d.metadataHash == candidate.metadataHash ==> r == Success(None))
      && (Compare(ems.version, d.version) >= 0 && !(ems.version == d.version && d.metadataHash == candidate.metadataHash)
          && d.upgradeNewMsId != "" ==>
            && (archivedAt(candidate.specRef, candidate.version).Failure? ==>
                  r == Failure(ArchivedLookupFailed(d.specRef, d.version, archivedAt(candidate.specRef, candidate.version).error)))
            && ((archivedAt(candidate.specRef, candidate.version).Success?
                 && AttemptedBefore(d, archivedAt(candidate.specRef, candidate.version).value, candidate))
                ==> r == Success(None)))
  {
    CompareZeroIffEqual(ems.version, d.version);
  }

  /**
   * An upgrade is proposed exactly when the candidate does not sort before the current
   * version, differs in version or hash, and (if a successor is named) the archive lookup
   * succeeds without a failed attempt at it. The proposal is the conversion result with
   * only name, version range, automatic and active upgrade taken from the old record.
   */
  lemma UpgradeProposed(d: MicroserviceDefinition, parseRange: RangeParser, registry: Registry,
                        marshal: Marshal, sum256: Digest, archivedAt: ArchivedByUrlVersion,
                        ems: ExchangeDefinition, candidate: MicroserviceDefinition)
    requires Resolved(d, parseRange, registry, marshal, sum256, ems, candidate)
    ensures var r := UpgradeCandidate(d, parseRange, registry, marshal, sum256, archivedAt);
      && (r.Success? && r.value.Some? <==>
            && Compare(ems.version, d.version) >= 0
            && (ems.version != d.version || d.metadataHash != candidate.metadataHash)
            && (d.upgradeNewMsId != "" ==>
                  archivedAt(candidate.specRef, candidate.version).Success?
                  && !AttemptedBefore(d, archivedAt(candidate.specRef, candidate.version).value, candidate)))
      && (r.Success? && r.value.Some? ==>
            var m := r.value.value;
            && m.name == d.name && m.upgradeVersionRange == d.upgradeVersionRange
            && m.autoUpgrade == d.autoUpgrade && m.activeUpgrade == d.activeUpgrade
            && m.(name := candidate.name, upgradeVersionRange := candidate.upgradeVersionRange,
                  autoUpgrade := candidate.autoUpgrade, activeUpgrade := candidate.activeUpgrade) == candidate
            && m.version == ems.version && m.specRef == ems.specRef && m.org == d.org
            && m.upgradeStartTime == 0 && m.upgradeFailedTime == 0 && m.upgradeNewMsId == "" && !m.archived)
  {
    CompareZeroIffEqual(ems.version, d.version);
  }

  /**
   * Idempotence: asking again on behalf of the proposed definition, with the same
   * collaborators, yields no upgrade, provided the registry gives the same answer to the
   * query made on behalf of the proposed definition.
   */
  lemma UpgradeIdempotent(d: MicroserviceDefinition, parseRange: RangeParser, registry: Registry,
                          marshal: Marshal, sum256: Digest, archivedAt: ArchivedByUrlVersion)
    requires UpgradeCandidate(d, parseRange, registry, marshal, sum256, archivedAt).Success?
    requires UpgradeCandidate(d, parseRange, registry, marshal, sum256, archivedAt).value.Some?
    requires parseRange(d.upgradeVersionRange).Success?
    requires var m := UpgradeCandidate(d, parseRange, registry, marshal, sum256, archivedAt).value.value;
      var expression := parseRange(d.upgradeVersionRange).value;
      registry(QueryFor(m, expression)) == registry(QueryFor(d, expression))
    ensures var m := UpgradeCandidate(d, parseRange, registry, marshal, sum256, archivedAt).value.value;
      UpgradeCandidate(m, parseRange, registry, marshal, sum256, archivedAt) == Success(None)
  {
    var m := UpgradeCandidate(d, parseRange, registry, marshal, sum256, archivedAt).value.value;
    var expression := parseRange(d.upgradeVersionRange).value;
    var ems := registry(QueryFor(d, expression)).value;
    CompareZeroIffEqual(ems.version, m.version);
  }
}
