// The child side: the request loop and the messages it sends to the master.
module ChildServer {
  import opened Bytes

  // What one pass of the loop meets: an error of select, nothing to do, a failed accept, or a client, with
  // whether the two messages could be written.
  datatype Outcome = SelectError | Nothing | NoClient | Client(taken: bool, avail: bool)

  // hup: SIGHUP arrived before the end of the pass.
  datatype Event = Event(what: Outcome, hup: bool)

  const TAKEN := false
  const AVAIL := true

  // sent: the messages in the pipe. ended: the return value, once the loop is left.
  datatype Child = Child(graceful: bool, req_count: nat, sent: seq<bool>, ended: Option<int>)

  const Started := Child(false, 0, [], None)

  // The messages of one pass.
  function Messages(e: Event): seq<bool> {
    match e.what
    case Client(taken, avail) => (if taken then [TAKEN] else []) + (if avail then [AVAIL] else [])
    case _ => []
  }

  predicate Leaves(e: Event) {
    e.hup || (e.what.Client? && !(e.what.taken && e.what.avail))
  }

  function Pass(c: Child, e: Event, max_requests: int): Child {
    if c.ended.Some? then c
    else if e.what.SelectError? then c.(ended := Some(-1))
    else
      var d := c.(graceful := c.graceful || Leaves(e), sent := c.sent + Messages(e));
      if d.graceful then d.(ended := Some(0))
      else
        var n := d.req_count + 1;
        d.(req_count := n, ended := if max_requests != 0 && n >= max_requests then Some(0) else None)
  }

  function Serve(events: seq<Event>, max_requests: int): Child {
    if events == [] then Started
    else Pass(Serve(events[..|events| - 1], max_requests), events[|events| - 1], max_requests)
  }

  lemma ServeStep(events: seq<Event>, i: nat, max_requests: int)
    requires i < |events|
    ensures Serve(events[..i + 1], max_requests) == Pass(Serve(events[..i], max_requests), events[i], max_requests)
  {
    assert events[..i + 1][..i] == events[..i];
  }

  // r is None while the loop goes on for more events.
  method cs_server_main(events: seq<Event>, max_requests: int) returns (r: Option<int>, sent: seq<bool>, req_count: nat)
    ensures var c := Serve(events, max_requests); r == c.ended && sent == c.sent && req_count == c.req_count
  {
    ServeNone(max_requests);
    hide Serve;
    sent, req_count := [], 0;
    var graceful_exit := false;
    var i := 0;
    while i < |events|
      invariant i <= |events|
      invariant Serve(events[..i], max_requests) == Child(graceful_exit, req_count, sent, None)
    {
      ServeStep(events, i, max_requests);
      var e := events[i];
      i := i + 1;
      if e.what.SelectError? {
        Ended(events, i, max_requests);
        return Some(-1), sent, req_count;
      }
      ghost var before := sent;
      if e.what.Client? {
        if e.what.taken {
          sent := sent + [TAKEN];
        } else {
          graceful_exit := true;
        }
        if e.what.avail {
          sent := sent + [AVAIL];
        } else {
          graceful_exit := true;
        }
      }
      assert sent == before + Messages(e);
      if e.hup {
        graceful_exit := true;
      }
      if graceful_exit {
        Ended(events, i, max_requests);
        return Some(0), sent, req_count;
      }
      req_count := req_count + 1;
      if max_requests != 0 && req_count >= max_requests {
        Ended(events, i, max_requests);
        return Some(0), sent, req_count;
      }
    }
    assert events[..|events|] == events;
    r := None;
  }

  // Once left, the loop stays left.
  lemma {:induction false} Ended(events: seq<Event>, i: nat, max_requests: int)
    requires i <= |events| && Serve(events[..i], max_requests).ended.Some?
    ensures Serve(events, max_requests) == Serve(events[..i], max_requests)
    decreases |events|
  {
    if i < |events| {
      assert events[..|events| - 1][..i] == events[..i];
      Ended(events[..|events| - 1], i, max_requests);
    } else {
      assert events[..i] == events;
    }
  }

  lemma ServeNone(max_requests: int)
    ensures Serve([], max_requests) == Started
  {
  }

  // How many clients were served.
  function Clients(events: seq<Event>): nat {
    if events == [] then 0 else Clients(events[..|events| - 1]) + if events[|events| - 1].what.Client? then 1 else 0
  }

  // One TAKEN and one AVAIL for each client, in that order.
  function Pairs(n: nat): (s: seq<bool>)
    ensures |s| == 2 * n && (n > 0 ==> s[|s| - 1] == AVAIL)
    ensures forall k :: 0 <= k < |s| ==> s[k] == (k % 2 == 1)
  {
    if n == 0 then [] else Pairs(n - 1) + [TAKEN, AVAIL]
  }

  // A child that goes on has told the master about every client, and last that it is free. Every pass of its
  // loop, with a client or without, counts against the limit of requests.
  lemma {:induction false} GoingOn(events: seq<Event>, max_requests: int)
    requires Serve(events, max_requests).ended == None
    ensures Serve(events, max_requests).sent == Pairs(Clients(events))
    ensures Serve(events, max_requests).req_count == |events| && !Serve(events, max_requests).graceful
    ensures max_requests != 0 ==> |events| == 0 || |events| < max_requests
  {
    hide Serve;
    if events != [] {
      var front := events[..|events| - 1];
      ServeStep(events, |events| - 1, max_requests);
      assert events[..|events|] == events;
      GoingOn(front, max_requests);
    } else {
      ServeNone(max_requests);
    }
  }

  // Nothing in the pass makes the child leave: no error of select, no SIGHUP, and both messages of a client are
  // written.
  predicate Quiet(e: Event) {
    && !e.what.SelectError? && !e.hup
    && (e.what.Client? ==> e.what.taken && e.what.avail)
  }

  // When a child goes on: as long as every pass is quiet and there are fewer than allowed.
  lemma {:induction false} GoesOnExactly(events: seq<Event>, max_requests: int)
    ensures Serve(events, max_requests).ended == None <==>
      (forall i :: 0 <= i < |events| ==> Quiet(events[i]))
      && (max_requests != 0 ==> events == [] || |events| < max_requests)
  {
    if events == [] {
      ServeNone(max_requests);
    } else {
      var n := |events| - 1;
      GoesOnExactly(events[..n], max_requests);
      ServeStep(events, n, max_requests);
      assert events[..|events|] == events;
      FrontQuiet(events);
      hide Serve;
      if Serve(events[..n], max_requests).ended == None {
        GoingOn(events[..n], max_requests);
      }
    }
  }

  lemma FrontQuiet(events: seq<Event>)
    requires events != []
    ensures var n := |events| - 1;
      (forall i :: 0 <= i < |events| ==> Quiet(events[i])) <==>
      Quiet(events[n]) && forall i :: 0 <= i < |events[..n]| ==> Quiet(events[..n][i])
  {
    hide Quiet;
    var n := |events| - 1;
    assert forall i :: 0 <= i < n ==> events[..n][i] == events[i];
  }

  // What the loop returns: -1 exactly if the pass that ended it was an error of select.
  lemma {:induction false} EndsWith(events: seq<Event>, n: nat, max_requests: int)
    requires n < |events| && Serve(events[..n], max_requests).ended == None
    requires Serve(events[..n + 1], max_requests).ended.Some?
    ensures Serve(events, max_requests).ended == Some(if events[n].what.SelectError? then -1 else 0)
  {
    ServeStep(events, n, max_requests);
    Ended(events, n + 1, max_requests);
  }

  // A child leaves its loop at the limit of passes at the latest, even if no client ever came.
  lemma Retires(events: seq<Event>, max_requests: int)
    requires max_requests > 0 && |events| >= max_requests
    ensures Serve(events, max_requests).ended.Some?
  {
    if Serve(events, max_requests).ended == None {
      GoingOn(events, max_requests);
    }
  }
}
