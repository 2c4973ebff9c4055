/**
 * The semaphore around live captures, as concurrent requests see it: begin, capture, put and end are
 * separate atomic steps, and a run is any interleaving of them.
 */
module CaptureGate {
  /** The channel of capacity one; full while a capture is in progress. */
  class Gate {
    var busy: bool

    constructor ()
      ensures !busy
    {
      busy := false;
    }

    /** The non-blocking send. */
    method BeginCapture() returns (ok: bool)
      modifies this
      ensures (ok, busy) == Begun(old(busy))
    {
      ok := !busy;
      busy := true;
    }

    method EndCapture()
      requires busy
      modifies this
      ensures !busy
    {
      busy := false;
    }
  }

  /** Whether a capture may begin, and the channel afterwards. */
  function Begun(busy: bool): (bool, bool) {
    (!busy, true)
  }

  /** Where a request without a token stands; at is the capture time it read. */
  datatype Request = Arrived | Capturing | Captured(at: int) | Stored | Finished | Refused

  /** The channel, the latest clock reading, the requests, and the capture times in the order of the puts. */
  datatype State = State(busy: bool, clock: int, requests: seq<Request>, puts: seq<int>)

  datatype Event =
    | Arrive
    | Begin(r: nat)
    | Capture(r: nat, now: int)     // the snapshot is complete and the clock is read
    | Fail(r: nat)                  // no snapshot could be made
    | Store(r: nat)                 // put
    | End(r: nat)

  const START := State(false, 0, [], [])

  /** One step; a step that is not enabled, or a clock reading that is not later, changes nothing. */
  function Apply(s: State, e: Event): State {
    match e
    case Arrive => s.(requests := s.requests + [Arrived])
    case Begin(r) =>
      if r < |s.requests| && s.requests[r].Arrived? then
        var (ok, busy) := Begun(s.busy);
        s.(busy := busy, requests := s.requests[r := if ok then Capturing else Refused])
      else s
    case Capture(r, now) =>
      if r < |s.requests| && s.requests[r].Capturing? && s.clock < now then
        s.(clock := now, requests := s.requests[r := Captured(now)])
      else s
    case Fail(r) =>
      if r < |s.requests| && s.requests[r].Capturing? then
        s.(busy := false, requests := s.requests[r := Finished])
      else s
    case Store(r) =>
      if r < |s.requests| && s.requests[r].Captured? then
        s.(puts := s.puts + [s.requests[r].at], requests := s.requests[r := Stored])
      else s
    case End(r) =>
      if r < |s.requests| && s.requests[r].Stored? then
        s.(busy := false, requests := s.requests[r := Finished])
      else s
  }

  function After(run: seq<Event>): State {
    if run == [] then START else Apply(After(run[..|run| - 1]), run[|run| - 1])
  }

  /** Between its begin and its end. */
  predicate InProgress(r: Request) {
    r.Capturing? || r.Captured? || r.Stored?
  }

  /** The channel is full exactly while one request is in progress, and there is never a second one. */
  ghost predicate Exclusive(s: State) {
    && (s.busy <==> exists r :: 0 <= r < |s.requests| && InProgress(s.requests[r]))
    && (forall q, r | 0 <= q < |s.requests| && 0 <= r < |s.requests| ::
          InProgress(s.requests[q]) && InProgress(s.requests[r]) ==> q == r)
  }

  /** Puts so far have increasing capture times, and a capture that is still to be put is later than all. */
  ghost predicate Ordered(s: State) {
    && (forall i, j :: 0 <= i < j < |s.puts| ==> s.puts[i] < s.puts[j])
    && (forall i :: 0 <= i < |s.puts| ==> s.puts[i] <= s.clock)
    && (forall r, i :: 0 <= r < |s.requests| && s.requests[r].Captured? && 0 <= i < |s.puts| ==>
          s.puts[i] < s.requests[r].at)
    && (forall r :: 0 <= r < |s.requests| && s.requests[r].Captured? ==> s.requests[r].at <= s.clock)
  }

  lemma StepKeepsExclusive(s: State, e: Event)
    requires Exclusive(s)
    ensures Exclusive(Apply(s, e))
  {
    var s' := Apply(s, e);
    if e.Begin? && s' != s && !s.busy {
      assert InProgress(s'.requests[e.r]);
    }
    if (e.Capture? || e.Store?) && s' != s {
      assert InProgress(s'.requests[e.r]) && InProgress(s.requests[e.r]);
    }
    if (e.Fail? || e.End?) && s' != s {
      assert InProgress(s.requests[e.r]);
    }
    if e.Arrive? || (e.Begin? && s.busy) {
      forall r | 0 <= r < |s.requests| && InProgress(s.requests[r]) ensures InProgress(s'.requests[r]) {
      }
    }
  }

  lemma StepKeepsOrdered(s: State, e: Event)
    requires Exclusive(s) && Ordered(s)
    ensures Ordered(Apply(s, e))
  {
    if e.Store? && e.r < |s.requests| && s.requests[e.r].Captured? {
      assert InProgress(s.requests[e.r]);
      forall r | 0 <= r < |s.requests| && s.requests[r].Captured? ensures r == e.r {
        assert InProgress(s.requests[r]);
      }
    }
  }

  /** In every interleaving at most one capture is between its begin and its end. */
  lemma {:induction false} OneCapture(run: seq<Event>)
    ensures Exclusive(After(run))
  {
    if run != [] {
      OneCapture(run[..|run| - 1]);
      StepKeepsExclusive(After(run[..|run| - 1]), run[|run| - 1]);
    }
  }

  /**
   * So with a clock that advances between captures, snapshots are put in strictly increasing order of
   * their capture times, although the clock is read outside the cache's lock.
   */
  lemma {:induction false} PutsInOrder(run: seq<Event>)
    ensures Ordered(After(run))
    ensures forall i, j :: 0 <= i < j < |After(run).puts| ==> After(run).puts[i] < After(run).puts[j]
  {
    if run != [] {
      PutsInOrder(run[..|run| - 1]);
      OneCapture(run[..|run| - 1]);
      StepKeepsOrdered(After(run[..|run| - 1]), run[|run| - 1]);
    }
  }

  /** A request is refused exactly when some capture is in progress at its begin. */
  lemma RefusedIff(run: seq<Event>, r: nat)
    requires r < |After(run).requests| && After(run).requests[r].Arrived?
    ensures Apply(After(run), Begin(r)).requests[r] == Refused
       <==> exists q :: 0 <= q < |After(run).requests| && InProgress(After(run).requests[q])
  {
    OneCapture(run);
  }
}
