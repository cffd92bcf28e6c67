/**
 Getting an O-RU allowed at the SDN controller: a certificate and a device entry, retried until both are
 acknowledged.
 */
module CallHomeAllow {

  /** A 2xx status, another status, or an exception, before or after the controller has acted. */
  datatype Answer = Accepted | Rejected | LostBefore | LostAfter

  datatype Request = Remove | Add | Allow

  datatype Exit = Finished | SleepRaised | StillTrying

  predicate TakesEffect(a: Answer) {
    a.Accepted? || a.LostAfter?
  }

  class Controller {
    var certificates: map<string, string>
    var devices: map<string, string>
    /** The requests received so far. */
    ghost var log: seq<Request>

    constructor (certificates: map<string, string>, devices: map<string, string>)
      ensures this.certificates == certificates && this.devices == devices && log == []
    {
      this.certificates, this.devices, log := certificates, devices, [];
    }

    method RemoveCertificate(name: string, answer: Answer)
      modifies `certificates, `log
      ensures log == old(log) + [Remove]
      ensures certificates == if TakesEffect(answer) then old(certificates) - {name} else old(certificates)
    {
      log := log + [Remove];
      if TakesEffect(answer) {
        certificates := certificates - {name};
      }
    }

    method AddCertificate(name: string, certificate: string, answer: Answer) returns (ok: bool)
      modifies `certificates, `log
      ensures log == old(log) + [Add]
      ensures certificates == if TakesEffect(answer) then old(certificates)[name := certificate] else old(certificates)
      ensures ok == answer.Accepted?
    {
      log := log + [Add];
      if TakesEffect(answer) {
        certificates := certificates[name := certificate];
      }
      ok := answer.Accepted?;
    }

    method AllowDevice(name: string, certificateId: string, answer: Answer) returns (ok: bool)
      modifies `devices, `log
      ensures log == old(log) + [Allow]
      ensures devices == if TakesEffect(answer) then old(devices)[name := certificateId] else old(devices)
      ensures ok == answer.Accepted?
    {
      log := log + [Allow];
      if TakesEffect(answer) {
        devices := devices[name := certificateId];
      }
      ok := answer.Accepted?;
    }
  }

  /** The tables agree on all other names. */
  ghost predicate SameElsewhere(table: map<string, string>, other: map<string, string>, name: string) {
    forall n :: n != name ==> (n in table <==> n in other) && (n in table ==> table[n] == other[n])
  }

  predicate Holds(table: map<string, string>, name: string, value: string) {
    name in table && table[name] == value
  }

  /** Some of the first passes brought an acknowledgement of the request. */
  predicate Acknowledged(answers: (nat, Request) -> Answer, request: Request, passes: nat) {
    exists p :: 0 <= p < passes && answers(p, request).Accepted?
  }

  lemma OnePassMore(answers: (nat, Request) -> Answer, request: Request, passes: nat)
    ensures Acknowledged(answers, request, passes + 1) <==>
              Acknowledged(answers, request, passes) || answers(passes, request).Accepted?
  {
    if answers(passes, request).Accepted? {
      assert passes < passes + 1;
    }
  }

  lemma NothingOutstandingYet(answers: (nat, Request) -> Answer, sleepRaises: nat -> bool)
    ensures Outstanding(answers, sleepRaises, 0)
  {
  }

  lemma StillOutstanding(answers: (nat, Request) -> Answer, sleepRaises: nat -> bool, pass: nat)
    ensures Outstanding(answers, sleepRaises, pass) && !BothAcknowledged(answers, pass)
            && (0 < pass ==> !sleepRaises(pass))
            ==> Outstanding(answers, sleepRaises, pass + 1)
  {
  }

  lemma WhatBothMeans(answers: (nat, Request) -> Answer, pass: nat)
    ensures BothAcknowledged(answers, pass) <==> Acknowledged(answers, Add, pass) && Acknowledged(answers, Allow, pass)
  {
  }

  lemma AcknowledgedForGood(answers: (nat, Request) -> Answer, pass: nat, passes: nat)
    requires pass <= passes && BothAcknowledged(answers, pass)
    ensures BothAcknowledged(answers, passes)
  {
  }

  lemma SameAtFirst(table: map<string, string>, name: string)
    ensures SameElsewhere(table, table, name)
  {
  }

  /** What a pass does to the entry of one name does not show elsewhere. */
  lemma SameAfterwards(table: map<string, string>, other: map<string, string>, name: string, value: string)
    requires SameElsewhere(table, other, name)
    ensures SameElsewhere(table - {name}, other, name) && SameElsewhere(table[name := value], other, name)
    ensures SameElsewhere((table - {name})[name := value], other, name)
  {
  }

  lemma RequestsInOrder(answers: (nat, Request) -> Answer, pass: nat)
    ensures Requests(answers, pass + 1)
            == Requests(answers, pass) + (if Acknowledged(answers, Add, pass) then [] else [Remove, Add])
               + (if Acknowledged(answers, Allow, pass) then [] else [Allow])
  {
  }

  lemma NothingAcknowledged(answers: (nat, Request) -> Answer)
    ensures forall request :: !Acknowledged(answers, request, 0)
  {
  }

  /**
   The requests of one pass: nothing that has been acknowledged is sent again, and the removal only goes before an
   addition.
   */
  function RequestsOf(answers: (nat, Request) -> Answer, pass: nat): seq<Request> {
    (if Acknowledged(answers, Add, pass) then [] else [Remove, Add])
      + (if Acknowledged(answers, Allow, pass) then [] else [Allow])
  }

  function Requests(answers: (nat, Request) -> Answer, passes: nat): seq<Request> {
    if passes == 0 then [] else Requests(answers, passes - 1) + RequestsOf(answers, passes - 1)
  }

  /** Both requests have been acknowledged, in the same pass or not. */
  predicate BothAcknowledged(answers: (nat, Request) -> Answer, passes: nat) {
    Acknowledged(answers, Add, passes) && Acknowledged(answers, Allow, passes)
  }

  /**
   A request was outstanding after each of the passes before this one, and the sleeps that followed them were well.
   */
  ghost predicate Outstanding(answers: (nat, Request) -> Answer, sleepRaises: nat -> bool, pass: nat) {
    forall q :: 0 <= q < pass ==> !BothAcknowledged(answers, q) && (0 < q ==> !sleepRaises(q))
  }

  /**
   send_odl_callhome_allow_tls, observed for a number of passes. The loop goes on while a request is outstanding and
   no sleep raises; it ends after the first pass by which both have been acknowledged, and sends exactly the requests
   above. Then the certificate and the device are in place, although every pass before began by removing the
   certificate. Nobody else's entries are touched.
   */
  method SendAllowTls(controller: Controller, hostname: string, certificate: string,
                      answers: (nat, Request) -> Answer, sleepRaises: nat -> bool, passes: nat)
    returns (exit: Exit, pass: nat)
    modifies controller
    ensures pass <= passes && Outstanding(answers, sleepRaises, pass)
    ensures exit.Finished? <==> BothAcknowledged(answers, pass)
    ensures exit.SleepRaised? <==> !BothAcknowledged(answers, pass) && 0 < pass && sleepRaises(pass)
    ensures exit.StillTrying? ==> pass == passes
    ensures (forall q :: !sleepRaises(q)) ==> (exit.Finished? <==> BothAcknowledged(answers, passes))
    ensures Acknowledged(answers, Add, pass) ==> Holds(controller.certificates, hostname, certificate)
    ensures Acknowledged(answers, Allow, pass) ==> Holds(controller.devices, hostname, hostname)
    ensures controller.log == old(controller.log) + Requests(answers, pass)
    ensures SameElsewhere(controller.certificates, old(controller.certificates), hostname)
    ensures SameElsewhere(controller.devices, old(controller.devices), hostname)
  {
    hide Acknowledged, BothAcknowledged, Outstanding, SameElsewhere, RequestsOf;
    var success1, success2 := false, false;
    pass := 0;
    NothingAcknowledged(answers);
    NothingOutstandingYet(answers, sleepRaises);
    SameAtFirst(controller.certificates, hostname);
    SameAtFirst(controller.devices, hostname);
    while !(success1 && success2)
      invariant pass <= passes && Outstanding(answers, sleepRaises, pass)
                && (0 < pass && sleepRaises(pass) ==> success1 && success2)
      invariant success1 == Acknowledged(answers, Add, pass) && success2 == Acknowledged(answers, Allow, pass)
      invariant success1 ==> Holds(controller.certificates, hostname, certificate)
      invariant success2 ==> Holds(controller.devices, hostname, hostname)
      invariant controller.log == old(controller.log) + Requests(answers, pass)
      invariant SameElsewhere(controller.certificates, old(controller.certificates), hostname)
      invariant SameElsewhere(controller.devices, old(controller.devices), hostname)
      decreases passes - pass
    {
      WhatBothMeans(answers, pass);
      if pass == passes {
        return StillTrying, pass;
      }
      SameAfterwards(controller.certificates, old(controller.certificates), hostname, certificate);
      SameAfterwards(controller.devices, old(controller.devices), hostname, hostname);
      RequestsInOrder(answers, pass);
      StillOutstanding(answers, sleepRaises, pass);
      OnePassMore(answers, Add, pass);
      OnePassMore(answers, Allow, pass);
      if !success1 {
        controller.RemoveCertificate(hostname, answers(pass, Remove));
        success1 := controller.AddCertificate(hostname, certificate, answers(pass, Add));
      }
      if !success2 {
        success2 := controller.AllowDevice(hostname, hostname, answers(pass, Allow));
      }
      pass := pass + 1;
      WhatBothMeans(answers, pass);
      if !(success1 && success2) && sleepRaises(pass) {
        return SleepRaised, pass;
      }
    }
    WhatBothMeans(answers, pass);
    AcknowledgedForGood(answers, pass, passes);
    exit := Finished;
  }
}
