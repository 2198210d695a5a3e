/** Descriptions of the reason codes recorded when a microservice instance is terminated. */
module ReasonCodes {
  import opened Definitions

  const MS_UNREG_EXCH_FAILED: uint64 := 200
  const MS_CLEAR_OLD_AGS_FAILED: uint64 := 201
  const MS_EXEC_FAILED: uint64 := 202
  const MS_REREG_EXCH_FAILED: uint64 := 203
  const MS_IMAGE_LOAD_FAILED: uint64 := 204
  const MS_DELETED_BY_UPGRADE_PROCESS: uint64 := 205
  const MS_DELETED_FOR_AG_ENDED: uint64 := 206

  const UNKNOWN_REASON: string := "unknown reason code, device might be downlevel"

  const CodeMeanings: map<int, string> := map[
    MS_UNREG_EXCH_FAILED := "Unregistering microservice on exchange failed",
    MS_CLEAR_OLD_AGS_FAILED := "Clearing old agreements failed",
    MS_EXEC_FAILED := "Execution failed",
    MS_REREG_EXCH_FAILED := "Reregistering microservice on exchange failed",
    MS_IMAGE_LOAD_FAILED := "Image loading failed",
    MS_DELETED_BY_UPGRADE_PROCESS := "Deleted by upgrading process",
    MS_DELETED_FOR_AG_ENDED := "Deleted for agreement ended"
  ]

  /** The description of `code`: its own text for the seven known codes, a fixed fallback otherwise. */
  function DecodeReasonCode(code: uint64): (r: string)
    ensures 200 <= code <= 206 ==> r == CodeMeanings[code]
    ensures r == UNKNOWN_REASON <==> !(200 <= code <= 206)
  {
    if code in CodeMeanings then CodeMeanings[code] else UNKNOWN_REASON
  }

  /** Distinct known codes decode to distinct descriptions, so a description identifies its code. */
  lemma DecodeIsInjective(c1: uint64, c2: uint64)
    requires DecodeReasonCode(c1) == DecodeReasonCode(c2)
    ensures c1 == c2 || (DecodeReasonCode(c1) == UNKNOWN_REASON && !(200 <= c1 <= 206) && !(200 <= c2 <= 206))
  {
  }
}
