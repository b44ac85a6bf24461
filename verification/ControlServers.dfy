/**
  InjectorControlServer::Run of ControlServer.cpp: the loop that serves one client at a time until a
  detach succeeds.  The requests that arrive, and what each call of detach comes to, are parameters.
*/
module ControlServers {

  const VERSION: nat := 1

  // What is read within the deadline; a request of another size counts as not received.
  datatype Incoming = NotReceived | Request(protocol: nat, action: nat)

  // Command::Status and Command::Detach
  const STATUS_ACTION: nat := 1
  const DETACH_ACTION: nat := 2

  datatype Status = Running | Failed | Detached

  datatype Error = NoError | DllInitFailed | InvalidData | InvalidFunction | Busy

  datatype Response = Response(status: Status, error: Error)

  // The detach requests among the first n; a request is for detach when it is of version 1 and action 2,
  // and for status when its action is 1.
  function Detaches(requests: seq<Incoming>, n: nat): nat
    requires n <= |requests|
  {
    if n == 0 then 0 else Detaches(requests, n - 1) + if requests[n - 1] == Request(1, 2) then 1 else 0
  }

  // Request i is a detach, and detach succeeds for it.
  predicate DetachedBy(requests: seq<Incoming>, terms: nat -> bool, i: nat)
    requires i < |requests|
  {
    requests[i] == Request(1, 2) && terms(Detaches(requests, i))
  }

  // What the answers say, in terms of the requests so far and of the last detach.  A request is served
  // only while no detach has succeeded, so Running means that none has been asked for.
  ghost predicate Answers(initialized: bool, requests: seq<Incoming>, terms: nat -> bool, i: nat, r: Response)
    requires i < |requests|
  {
    var request := requests[i];
    && (r.status == Detached <==> DetachedBy(requests, terms, i))
    && (r.status == Running <==> initialized && forall j :: 0 <= j <= i ==> requests[j] != Request(1, 2))
    && (r.error == InvalidData <==> request.NotReceived? || request.protocol != 1)
    && (r.error == InvalidFunction <==> request.Request? && request.protocol == 1 && request.action !in {1, 2})
    && (r.error == Busy <==> request == Request(1, 2) && r.status != Detached)
    && (r.error == DllInitFailed <==> request == Request(1, 1) && r.status == Failed)
  }

  method Run(initialized: bool, requests: seq<Incoming>, terms: nat -> bool) returns (responses: seq<Response>, returned: bool)
    ensures |responses| <= |requests| && forall i :: 0 <= i < |responses| ==> Answers(initialized, requests, terms, i, responses[i])
    ensures returned ==> responses != [] && DetachedBy(requests, terms, |responses| - 1)
    ensures forall i :: 0 <= i < |responses| - (if returned then 1 else 0) ==> !DetachedBy(requests, terms, i)
    ensures !returned ==> |responses| == |requests|
  {
    responses := [];
    var init, calls := initialized, 0;
    for n := 0 to |requests|
      invariant |responses| == n && calls == Detaches(requests, n) && init == (initialized && forall j :: 0 <= j < n ==> requests[j] != Request(1, 2))
      invariant forall i :: 0 <= i < n ==> Answers(initialized, requests, terms, i, responses[i]) && !DetachedBy(requests, terms, i)
    {
      var request := requests[n];
      var detached := false;
      var response := Response(if init then Running else Failed, if init then NoError else DllInitFailed);
      if request.NotReceived? || request.protocol != VERSION {
        response := response.(error := InvalidData);
      } else if request.action == DETACH_ACTION {
        detached := terms(calls);
        calls := calls + 1;
        response := if detached then Response(Detached, NoError) else Response(Failed, Busy);
        if !detached {
          init := false;
        }
      } else if request.action != STATUS_ACTION {
        response := response.(error := InvalidFunction);
      }
      responses := responses + [response];
      if detached {
        return responses, true;
      }
    }
    returned := false;
  }
}
