/**
 * Whether an installed definition may begin an upgrade now: four ordered rules, the last
 * of which scans the running instances of the definition's spec ref and version.
 */
module Eligibility {
  import opened Wrappers
  import opened Definitions
  import Conversion

  /** An upgrade has started and has neither completed (re-registered) nor failed. */
  predicate MidUpgrade(d: MicroserviceDefinition) {
    d.upgradeStartTime != 0 && d.upgradeMsReregisteredTime == 0 && d.upgradeFailedTime == 0
  }

  /** An instance of this very definition that is bound by at least one agreement. */
  predicate HoldsAgreement(d: MicroserviceDefinition, inst: MicroserviceInstance) {
    inst.microserviceDefId == d.id && |inst.associatedAgreements| > 0
  }

  /**
   * The eligibility rules. `instances` is what the store returns for the unarchived
   * instances of the definition's spec ref and version; a store failure makes an inactive
   * upgrade ineligible.
   */
  predicate ReadyForUpgrade(d: MicroserviceDefinition, instances: Result<seq<MicroserviceInstance>, string>) {
    && !d.archived
    && d.autoUpgrade
    && !MidUpgrade(d)
    && (d.activeUpgrade
        || (instances.Success? &&
            forall i :: 0 <= i < |instances.value| ==> !HoldsAgreement(d, instances.value[i])))
  }

  /** MicroserviceReadyForUpgrade: the rules in order, with an early-exit scan of the instances. */
  method MicroserviceReadyForUpgrade(d: MicroserviceDefinition, instances: Result<seq<MicroserviceInstance>, string>)
    returns (ready: bool)
    ensures ready == ReadyForUpgrade(d, instances)
  {
    if d.archived {
      return false;
    }
    if !d.autoUpgrade {
      return false;
    }
    if d.upgradeStartTime != 0 && d.upgradeMsReregisteredTime == 0 && d.upgradeFailedTime == 0 {
      return false;
    }
    if !d.activeUpgrade {
      if instances.Failure? {
        return false; // fail closed
      }
      var insts := instances.value;
      for i := 0 to |insts|
        invariant forall k :: 0 <= k < i ==> !HoldsAgreement(d, insts[k])
      {
        if insts[i].microserviceDefId == d.id {
          if |insts[i].associatedAgreements| > 0 {
            return false;
          }
        }
      }
    }
    return true;
  }

  /**
   * Each rule on its own: an archived, manual-only or mid-upgrade definition is never
   * eligible; an inactive upgrade fails closed on a store error and is refused as soon as
   * one instance of this definition holds an agreement.
   */
  lemma IneligibleCases(d: MicroserviceDefinition, instances: Result<seq<MicroserviceInstance>, string>)
    ensures d.archived ==> !ReadyForUpgrade(d, instances)
    ensures !d.autoUpgrade ==> !ReadyForUpgrade(d, instances)
    ensures MidUpgrade(d) ==> !ReadyForUpgrade(d, instances)
    ensures !d.activeUpgrade && instances.Failure? ==> !ReadyForUpgrade(d, instances)
    ensures !d.activeUpgrade && instances.Success? &&
            (exists i :: 0 <= i < |instances.value| && HoldsAgreement(d, instances.value[i]))
            ==> !ReadyForUpgrade(d, instances)
    ensures !d.archived && d.autoUpgrade && !MidUpgrade(d) && d.activeUpgrade ==> ReadyForUpgrade(d, instances)
  {
  }

  /**
   * Instances of other definitions (a different definition id) never affect the answer,
   * wherever they appear in the store's list.
   */
  lemma {:induction false} OtherDefinitionsIgnored(d: MicroserviceDefinition, before: seq<MicroserviceInstance>,
                                                  other: MicroserviceInstance, after: seq<MicroserviceInstance>)
    requires other.microserviceDefId != d.id
    ensures ReadyForUpgrade(d, Success(before + [other] + after)) == ReadyForUpgrade(d, Success(before + after))
  {
    var withOther := before + [other] + after;
    var without := before + after;
    if forall i :: 0 <= i < |without| ==> !HoldsAgreement(d, without[i]) {
      forall i | 0 <= i < |withOther| ensures !HoldsAgreement(d, withOther[i]) {
        if i < |before| {
          assert withOther[i] == without[i];
        } else if i > |before| {
          assert withOther[i] == without[i - 1];
        }
      }
    }
    if forall i :: 0 <= i < |withOther| ==> !HoldsAgreement(d, withOther[i]) {
      forall i | 0 <= i < |without| ensures !HoldsAgreement(d, without[i]) {
        if i < |before| {
          assert without[i] == withOther[i];
        } else {
          assert without[i] == withOther[i + 1];
        }
      }
    }
  }

  /** A freshly converted record is never eligible: its default configuration is manual-only. */
  lemma ConvertedNotReady(ems: ExchangeDefinition, org: string, marshal: Conversion.Marshal,
                          sum256: Conversion.Digest, instances: Result<seq<MicroserviceInstance>, string>)
    requires Conversion.ToPersistent(ems, org, marshal, sum256).Success?
    ensures !MidUpgrade(Conversion.ToPersistent(ems, org, marshal, sum256).value)
    ensures !ReadyForUpgrade(Conversion.ToPersistent(ems, org, marshal, sum256).value, instances)
  {
  }

  /** Enabling automatic upgrade on a freshly converted record makes it eligible. */
  lemma ConvertedReadyOnceAutomatic(ems: ExchangeDefinition, org: string, marshal: Conversion.Marshal,
                                    sum256: Conversion.Digest, instances: Result<seq<MicroserviceInstance>, string>)
    requires Conversion.ToPersistent(ems, org, marshal, sum256).Success?
    ensures ReadyForUpgrade(Conversion.ToPersistent(ems, org, marshal, sum256).value.(autoUpgrade := true), instances)
  {
  }
}
