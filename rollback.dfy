/**
 * Stall detection of an upgrade in its pre-execution window, and lookup of the archived
 * definition to roll back to.
 */
module Rollback {
  import opened Wrappers
  import opened Definitions
  import Conversion

  /** Go's uint64 subtraction, which wraps around modulo 2^64. */
  function Sub64(a: uint64, b: uint64): (r: uint64)
    ensures a >= b ==> r == a - b
    ensures a < b ==> r == UINT64_MODULUS + a - b
  {
    (a - b) % UINT64_MODULUS
  }

  /**
   * MicroserviceNeedsRollback: the upgrade started, its containers have not begun executing,
   * and more than `execTimeout` seconds (uint64 arithmetic) have passed since it started.
   */
  function NeedsRollback(d: MicroserviceDefinition, now: uint64, execTimeout: uint64): (r: bool)
    ensures r ==> d.upgradeStartTime != 0 && d.upgradeExecutionStartTime == 0
    ensures r ==> now != d.upgradeStartTime
  {
    if d.upgradeStartTime == 0 then false
    else if d.upgradeExecutionStartTime == 0 then Sub64(now, d.upgradeStartTime) > execTimeout
    else false
  }

  /**
   * Rollback is needed exactly when an upgrade started, execution has not begun, and the
   * wrapped elapsed time strictly exceeds the timeout: at exactly the timeout it is not.
   */
  lemma NeedsRollbackIff(d: MicroserviceDefinition, now: uint64, execTimeout: uint64)
    ensures d.upgradeStartTime == 0 ==> !NeedsRollback(d, now, execTimeout)
    ensures d.upgradeExecutionStartTime != 0 ==> !NeedsRollback(d, now, execTimeout)
    ensures NeedsRollback(d, now, execTimeout) <==>
      d.upgradeStartTime != 0 && d.upgradeExecutionStartTime == 0
      && (now - d.upgradeStartTime) % UINT64_MODULUS > execTimeout
    ensures now >= d.upgradeStartTime && now - d.upgradeStartTime == execTimeout ==> !NeedsRollback(d, now, execTimeout)
  {
  }

  /** The failure timestamp, and every field but the two timestamps read, is never consulted. */
  lemma NeedsRollbackReadsTwoTimestamps(d: MicroserviceDefinition, e: MicroserviceDefinition, now: uint64, execTimeout: uint64)
    requires d.upgradeStartTime == e.upgradeStartTime
    requires d.upgradeExecutionStartTime == e.upgradeExecutionStartTime
    ensures NeedsRollback(d, now, execTimeout) == NeedsRollback(e, now, execTimeout)
  {
  }

  /**
   * With the clock behind the start time the subtraction wraps: the elapsed time reads as
   * 2^64 - (start - now), so the stall is reported unless the timeout is at least that large.
   */
  lemma ClockBehindStart(d: MicroserviceDefinition, now: uint64, execTimeout: uint64)
    requires d.upgradeExecutionStartTime == 0 && now < d.upgradeStartTime
    ensures NeedsRollback(d, now, execTimeout) <==> UINT64_MODULUS - (d.upgradeStartTime - now) > execTimeout
    ensures execTimeout < UINT64_MODULUS / 2 && d.upgradeStartTime - now < UINT64_MODULUS / 2 ==> NeedsRollback(d, now, execTimeout)
  {
  }

  /** The timeout boundary: start 1000 and timeout 300 stall at 1301 but not at 1300. */
  lemma TimeoutBoundary(d: MicroserviceDefinition)
    requires d.upgradeStartTime == 1000 && d.upgradeExecutionStartTime == 0
    ensures NeedsRollback(d, 1301, 300)
    ensures !NeedsRollback(d, 1300, 300)
  {
  }

  /** A freshly converted record has no upgrade in flight, so it never needs a rollback. */
  lemma ConvertedNeverRollsBack(ems: ExchangeDefinition, org: string, marshal: Conversion.Marshal,
                                sum256: Conversion.Digest, now: uint64, execTimeout: uint64)
    requires Conversion.ToPersistent(ems, org, marshal, sum256).Success?
    ensures !NeedsRollback(Conversion.ToPersistent(ems, org, marshal, sum256).value, now, execTimeout)
  {
  }

  /** The archived definitions with a given spec ref, as the store returns them. */
  type ArchivedByUrl = string -> Result<seq<MicroserviceDefinition>, string>

  /** A record whose successor pointer names the definition `id`. */
  predicate PointsTo(m: MicroserviceDefinition, id: string) {
    m.upgradeNewMsId == id
  }

  /**
   * GetRollbackMicroserviceDef: the first archived definition of the same spec ref whose
   * successor pointer names `d`; nothing when none does; an error only when the store fails.
   */
  method GetRollbackMicroserviceDef(d: MicroserviceDefinition, archivedByUrl: ArchivedByUrl)
    returns (r: Result<Option<MicroserviceDefinition>, Error>)
    ensures archivedByUrl(d.specRef).Failure? ==>
      r == Failure(RollbackLookupFailed(d.specRef, archivedByUrl(d.specRef).error))
    ensures archivedByUrl(d.specRef).Success? ==> r.Success?
    ensures archivedByUrl(d.specRef).Success? ==>
      var defs := archivedByUrl(d.specRef).value;
      && (r.value.None? <==> forall k :: 0 <= k < |defs| ==> !PointsTo(defs[k], d.id))
      && (r.value.Some? ==>
            exists k :: 0 <= k < |defs| && defs[k] == r.value.value && PointsTo(defs[k], d.id)
                        && forall j :: 0 <= j < k ==> !PointsTo(defs[j], d.id))
  {
    var found := archivedByUrl(d.specRef);
    if found.Failure? {
      return Failure(RollbackLookupFailed(d.specRef, found.error));
    }
    var defs := found.value;
    for i := 0 to |defs|
      invariant forall k :: 0 <= k < i ==> !PointsTo(defs[k], d.id)
    {
      if defs[i].upgradeNewMsId == d.id {
        return Success(Some(defs[i])); // found it
      }
    }
    return Success(None);
  }
}
