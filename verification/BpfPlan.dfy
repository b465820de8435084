/**
  The kernel-side planner: request line, header section and chunked body, one automaton each.
 */
module BpfPlan {
  import opened Bytes
  import opened BpfScan
  import opened BpfRequestLine
  import opened BpfHeaders
  import opened BpfChunked

  predicate ChunksAllow(s: ByteSeq, headerEnd: nat, inbound: bool)
    requires headerEnd <= |s|
  {
    if headerEnd == |s| then !inbound
    else
      match ScanChunks(s, headerEnd)
      case Valid => true
      case Pending => !inbound
      case Refused => false
  }

  /** The insertion point for a captured request of a message of `total` bytes. */
  function ScanPlan(s: ByteSeq, total: nat, inbound: bool): (r: Option<nat>)
    ensures r.Some? ==> r.value < |s| <= HTTP_REQUEST_BYTES
  {
    if s == [] || |s| > HTTP_REQUEST_BYTES then None
    else
      match ScanRequestLine(s)
      case None => None
      case Some(start) =>
        if start >= |s| then None
        else
          match ScanHeaders(s, start, total, inbound)
          case None => None
          case Some(plan) =>
            if plan.chunked && (total != |s| || plan.headerEnd > |s| || !ChunksAllow(s, plan.headerEnd, inbound)) then None
            else Some(start)
  }

  predicate ScanInbound(s: ByteSeq, total: nat) { |s| == total && ScanPlan(s, total, true).Some? }

  method PlanRequest(request: ByteSeq, total: nat, inbound: bool) returns (r: Option<nat>)
    ensures r == ScanPlan(request, total, inbound)
  {
    hide ScanRequestLine, ScanHeaders, ScanChunks;
    if request == [] || |request| > HTTP_REQUEST_BYTES {
      return None;
    }
    var insertAt := RunRequestLine(request);
    if insertAt.None? || insertAt.value >= |request| {
      return None;
    }
    var plan := RunHeaders(request, insertAt.value, total, inbound);
    if plan.None? {
      return None;
    }
    if plan.value.chunked {
      if total != |request| || plan.value.headerEnd > |request| {
        return None;
      }
      if plan.value.headerEnd == |request| {
        if inbound {
          return None;
        }
      } else {
        var result := RunChunks(request, plan.value.headerEnd);
        if result == Refused || (inbound && result != Valid) {
          return None;
        }
      }
    }
    r := insertAt;
  }

  method AcceptInbound(request: ByteSeq, total: nat) returns (ok: bool)
    ensures ok == ScanInbound(request, total)
  {
    hide ScanPlan;
    if |request| != total {
      return false;
    }
    var plan := PlanRequest(request, total, true);
    ok := plan.Some?;
  }
}
