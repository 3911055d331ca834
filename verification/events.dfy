/**
 * domain_wait_event: wait for the next platform event addressed to the
 * watched domain, discarding (and logging) any event for another domain.
 */
module Events {

  datatype EventKind =
    | DomainShutdown(reasonCode: int)
    | DomainDeath
    | DiskEject
    | OtherEvent(typeCode: int)

  datatype Event = Event(domid: nat, kind: EventKind)

  /** One answer of libxl_event_wait: an event, or a nonzero rc. */
  datatype WaitAnswer = Delivered(event: Event) | WaitFailed(rc: int)

  /**
   * How the wait ends; `consumed` counts the answers used. Starved means the
   * answers ran out while xl would still be waiting.
   */
  datatype WaitOutcome =
    | Got(event: Event, consumed: nat)
    | Failed(rc: int, consumed: nat)
    | Starved

  /** The answer is an event for some other domain, which the loop discards. */
  predicate Foreign(a: WaitAnswer, domid: nat) {
    a.Delivered? && a.event.domid != domid
  }

  method DomainWaitEvent(domid: nat, answers: seq<WaitAnswer>) returns (r: WaitOutcome)
    requires forall i :: 0 <= i < |answers| && answers[i].WaitFailed? ==> answers[i].rc != 0
    ensures r.Got? ==>
      && 0 < r.consumed <= |answers|
      && answers[r.consumed - 1] == Delivered(r.event)
      && r.event.domid == domid
    ensures r.Failed? ==>
      && 0 < r.consumed <= |answers|
      && answers[r.consumed - 1] == WaitFailed(r.rc)
      && r.rc != 0
    ensures r.Got? || r.Failed? ==> forall j :: 0 <= j < r.consumed - 1 ==> Foreign(answers[j], domid)
    ensures r.Starved? <==> forall j :: 0 <= j < |answers| ==> Foreign(answers[j], domid)
  {
    var i := 0;
    while i < |answers|
      invariant 0 <= i <= |answers|
      invariant forall j :: 0 <= j < i ==> Foreign(answers[j], domid)
    {
      match answers[i]
      case WaitFailed(rc) =>
        return Failed(rc, i + 1);
      case Delivered(e) =>
        if e.domid == domid {
          return Got(e, i + 1);
        }
      i := i + 1;
    }
    return Starved;
  }
}
