/** The package install queue (the Packages class of Editor/ProjectSetup.cs).

    InstallPackages enqueues identifiers and starts a drain:
    StartNextPackageInstallation dequeues one identifier and asks the package
    manager to add it, waits until the request completes, logs the outcome, and
    if the queue is not empty waits a moment and starts over. The waits are
    suspension points of an `async void` method, so the model makes each
    running drain an explicit state and each resumption a method: RequestCompletes
    (the package manager finishes the current request), Poll (a drain tests
    IsCompleted) and CooldownElapsed (a drain's pause is over). The times of the
    waits are not modelled. */
module Packages {
  import opened Wrappers
  import opened Console

  /** UnityEditor.PackageManager.StatusCode, with its numeric values. */
  datatype StatusCode = InProgress | Success | Failure {
    function Value(): int {
      match this
      case InProgress => 0
      case Success => 1
      case Failure => 2
    }
  }

  /** What a finished request exposes: its Status, Result.packageId and
      Error.message. */
  datatype Completion = Completion(status: StatusCode, packageId: string, errorMessage: string)

  /** The log entry for a finished request (Editor/ProjectSetup.cs:123-124):
      a success names the installed package, a failure carries the package
      manager's message; a request that is not finished is not reported. */
  function Classify(c: Completion): (entry: Option<LogEntry>)
    ensures entry == Some(Info("Installed: " + c.packageId)) <==> c.status == Success
    ensures c.status == Failure ==> entry == Some(Error(c.errorMessage))
    ensures entry.Some? <==> c.status != InProgress
  {
    if c.status == Success then Some(Info("Installed: " + c.packageId))
    else if c.status.Value() >= Failure.Value() then Some(Error(c.errorMessage))
    else None
  }

  /** An AddRequest: the identifier given to Client.Add and, once IsCompleted,
      how it finished. */
  datatype Request = Request(identifier: string, completion: Option<Completion>)

  /** One running StartNextPackageInstallation: waiting for `request` to
      complete, or pausing before it takes the next identifier. */
  datatype Drain = Polling | CoolingDown

  /** What Queue<T>.Dequeue throws on an empty queue. */
  const QueueEmpty := "InvalidOperationException: Queue empty."

  class Installer {
    /** packagesToInstall, head first. */
    var pending: seq<string>
    /** The static `request` field: the last request made, shared by all drains. */
    var request: Option<Request>
    /** Every identifier given to Client.Add, in call order. */
    var requested: seq<string>
    /** The drains that are running. */
    var drains: seq<Drain>
    var log: seq<LogEntry>
    /** Every identifier ever given to InstallPackages, in order. */
    ghost var submitted: seq<string>
    /** How each request made so far finished, in request order. */
    ghost var outcomes: seq<Completion>

    /** Identifiers are taken from the queue in submission order, each exactly
        once; `request` is the last request made; a polling drain has a
        request to poll. */
    ghost predicate Valid()
      reads this
    {
      && submitted == requested + pending
      && (request.None? <==> requested == [])
      && (request.Some? ==> request.value.identifier == requested[|requested| - 1])
      && (drains != [] ==> request.Some?)
      && |outcomes| + (if request.Some? && request.value.completion.None? then 1 else 0) <= |requested|
      && (request.Some? && request.value.completion.Some? ==>
            && request.value.completion.value.status != InProgress
            && outcomes != [] && outcomes[|outcomes| - 1] == request.value.completion.value)
    }

    /** Installs happen one at a time: at most one drain runs; an idle queue is
        empty; a pausing drain has an identifier left to take; no request is in
        flight unless its drain is polling it; and each finished request has
        been reported exactly once, in request order, by its own outcome. */
    ghost predicate Serial()
      reads this
      requires Valid()
    {
      && |drains| <= 1
      && |outcomes| == |requested| - (if request.Some? && request.value.completion.None? then 1 else 0)
      && (drains == [] ==> pending == [])
      && (drains == [CoolingDown] ==> pending != [])
      && (drains != [Polling] ==> request.None? || request.value.completion.Some?)
      && |log| == |requested| - (if drains == [Polling] then 1 else 0)
      && |log| <= |outcomes|
    }

    /** Under Serial, the log reports each finished request by its own
        outcome, in request order. */
    ghost predicate ReportedInOrder()
      reads this
    {
      |log| <= |outcomes| && forall i :: 0 <= i < |log| ==> Some(log[i]) == Classify(outcomes[i])
    }

    constructor ()
      ensures Valid() && Serial() && ReportedInOrder()
      ensures pending == [] && request.None? && requested == [] && drains == [] && log == []
    {
      pending, request, requested, drains, log := [], None, [], [], [];
      submitted, outcomes := [], [];
    }

    /** The foreach loop of Editor/ProjectSetup.cs:109-111: every identifier
        goes to the tail of the queue, in argument order. */
    method Enqueue(packages: seq<string>)
      requires Valid()
      modifies this`pending, this`submitted
      ensures Valid()
      ensures pending == old(pending) + packages
      ensures submitted == old(submitted) + packages
    {
      var i := 0;
      while i < |packages|
        invariant 0 <= i <= |packages|
        invariant pending == old(pending) + packages[..i]
        invariant submitted == old(submitted) + packages[..i]
      {
        pending := pending + [packages[i]];
        submitted := submitted + [packages[i]];
        assert packages[..i + 1] == packages[..i] + [packages[i]];
        i := i + 1;
      }
      assert packages[..i] == packages;
    }

    /** request = Client.Add(packagesToInstall.Dequeue()) for a non-empty
        queue (Editor/ProjectSetup.cs:119): the head identifier is requested
        and a new, unfinished request replaces the old one. */
    method RequestNext()
      requires Valid() && pending != []
      modifies this`pending, this`request, this`requested
      ensures Valid()
      ensures requested == old(requested) + [old(pending)[0]] && pending == old(pending)[1..]
      ensures request == Some(Request(old(pending)[0], None))
    {
      requested := requested + [pending[0]];
      request := Some(Request(pending[0], None));
      pending := pending[1..];
    }

    /** Packages.InstallPackages (Editor/ProjectSetup.cs:108-116), as written:
        a drain is started whenever the queue is then non-empty, even if one
        is already running. Started from idle it keeps installs serial. */
    method InstallPackages(packages: seq<string>)
      requires Valid()
      modifies this
      ensures Valid()
      ensures submitted == old(submitted) + packages && log == old(log) && outcomes == old(outcomes)
      ensures old(pending) + packages == [] ==>
                pending == [] && requested == old(requested) && request == old(request) && drains == old(drains)
      ensures old(pending) + packages != [] ==>
                && requested == old(requested) + [(old(pending) + packages)[0]]
                && pending == (old(pending) + packages)[1..]
                && request == Some(Request((old(pending) + packages)[0], None))
                && drains == old(drains) + [Polling]
      ensures old(drains) == [] && old(Serial()) ==> Serial()
      ensures old(ReportedInOrder()) ==> ReportedInOrder()
    {
      Enqueue(packages);
      if |pending| > 0 {
        RequestNext();
        drains := drains + [Polling];
        assert old(drains) == [] ==> drains == [Polling];
      }
    }

    /** InstallPackages as intended: identifiers are queued behind a running
        drain, and a drain is started only when none is running. */
    method InstallPackagesWhenIdle(packages: seq<string>)
      requires Valid() && Serial()
      modifies this
      ensures Valid() && Serial()
      ensures old(ReportedInOrder()) ==> ReportedInOrder()
      ensures submitted == old(submitted) + packages && log == old(log) && outcomes == old(outcomes)
      ensures old(drains) != [] || packages == [] ==>
                pending == old(pending) + packages && requested == old(requested)
                && request == old(request) && drains == old(drains)
      ensures old(drains) == [] && packages != [] ==>
                && requested == old(requested) + [packages[0]]
                && pending == packages[1..]
                && request == Some(Request(packages[0], None))
                && drains == [Polling]
    {
      Enqueue(packages);
      if |pending| > 0 && drains == [] {
        RequestNext();
        drains := [Polling];
      }
    }

    /** The package manager finishes the current request. */
    method RequestCompletes(c: Completion)
      requires Valid() && request.Some? && request.value.completion.None?
      requires c.status != InProgress
      modifies this`request, this`outcomes
      ensures Valid()
      ensures request == Some(old(request).value.(completion := Some(c)))
      ensures outcomes == old(outcomes) + [c]
      ensures old(Serial()) ==> Serial()
      ensures old(Serial() && ReportedInOrder()) ==> ReportedInOrder()
    {
      request := Some(request.value.(completion := Some(c)));
      outcomes := outcomes + [c];
    }

    /** Drain k tests `request.IsCompleted` (Editor/ProjectSetup.cs:121-129).
        Not yet: it keeps waiting. Done: the outcome is logged, and the drain
        pauses if the queue is non-empty and ends otherwise. */
    method Poll(k: nat)
      requires Valid() && k < |drains| && drains[k] == Polling
      modifies this`drains, this`log
      ensures Valid()
      ensures old(request).value.completion.None? ==> drains == old(drains) && log == old(log)
      ensures old(request).value.completion.Some? ==>
                && log == old(log) + [Classify(old(request).value.completion.value).value]
                && drains == (if pending != [] then old(drains)[k := CoolingDown]
                              else old(drains)[..k] + old(drains)[k + 1..])
      ensures old(Serial()) ==> Serial()
      ensures old(Serial() && ReportedInOrder()) ==> ReportedInOrder()
    {
      var completion := request.value.completion;
      if completion.Some? {
        var c := completion.value;
        var entry := Classify(c);
        if entry.Some? {
          log := log + [entry.value];
        }
        if |pending| > 0 {
          drains := drains[k := CoolingDown];
        } else {
          drains := drains[..k] + drains[k + 1..];
        }
      }
    }

    /** Drain k's pause is over and it calls StartNextPackageInstallation
        again (Editor/ProjectSetup.cs:127-128, 119). A non-empty queue yields
        the next request; an empty one makes Dequeue throw, which ends the
        drain with the exception in the log. */
    method CooldownElapsed(k: nat)
      requires Valid() && k < |drains| && drains[k] == CoolingDown
      modifies this
      ensures Valid()
      ensures outcomes == old(outcomes)
      ensures old(pending) == [] ==>
                && log == old(log) + [Exception(QueueEmpty)]
                && drains == old(drains)[..k] + old(drains)[k + 1..]
                && pending == [] && requested == old(requested) && request == old(request)
      ensures old(pending) != [] ==>
                && requested == old(requested) + [old(pending)[0]] && pending == old(pending)[1..]
                && request == Some(Request(old(pending)[0], None))
                && drains == old(drains)[k := Polling] && log == old(log)
      ensures old(Serial()) ==> Serial()
      ensures old(Serial() && ReportedInOrder()) ==> ReportedInOrder()
    {
      if |pending| == 0 {
        log := log + [Exception(QueueEmpty)];
        drains := drains[..k] + drains[k + 1..];
      } else {
        RequestNext();
        drains := drains[k := Polling];
        assert |drains| == 1 ==> drains == [Polling];
      }
    }
  }

  /** One pass of a serial drain: the current request finishes with c, the
      drain logs it and, when the queue is not empty, pauses and requests the
      next identifier. */
  method FinishCurrent(installer: Installer, c: Completion)
    requires installer.Valid() && installer.Serial() && installer.ReportedInOrder()
    requires installer.drains == [Polling] && installer.request.Some? && installer.request.value.completion.None?
    requires c.status != InProgress
    modifies installer
    ensures installer.Valid() && installer.Serial() && installer.ReportedInOrder()
    ensures installer.log == old(installer.log) + [Classify(c).value]
    ensures installer.outcomes == old(installer.outcomes) + [c]
    ensures old(installer.pending) == [] ==>
              && installer.drains == [] && installer.pending == [] && installer.requested == old(installer.requested)
              && installer.request == Some(old(installer.request).value.(completion := Some(c)))
    ensures old(installer.pending) != [] ==>
              && installer.drains == [Polling]
              && installer.requested == old(installer.requested) + [old(installer.pending)[0]]
              && installer.pending == old(installer.pending)[1..]
              && installer.request == Some(Request(old(installer.pending)[0], None))
  {
    installer.RequestCompletes(c);
    installer.Poll(0);
    if installer.drains != [] {
      installer.CooldownElapsed(0);
    }
  }

  /** Two packages, the first installed, the second failing: the log reads
      "Installed: <id>" then the failure message, and the queue ends idle with
      both identifiers requested in order. */
  method InstallTwo(a: string, b: string, installedId: string, failure: string)
    returns (log: seq<LogEntry>, requested: seq<string>, idle: bool)
    ensures log == [Info("Installed: " + installedId), Error(failure)]
    ensures requested == [a, b]
    ensures idle
  {
    var installer := new Installer();
    installer.InstallPackagesWhenIdle([a, b]);
    FinishCurrent(installer, Completion(Success, installedId, ""));
    FinishCurrent(installer, Completion(Failure, "", failure));
    log, requested := installer.log, installer.requested;
    idle := installer.drains == [] && installer.pending == [];
  }

  /** InstallPackages([a, b]) on an idle installer, then InstallPackages([c])
      while a is in flight: the second call requests b and starts a second
      drain. */
  method SubmitWhileBusy(installer: Installer, a: string, b: string, c: string)
    requires installer.Valid()
    requires installer.pending == [] && installer.requested == [] && installer.drains == [] && installer.log == []
    modifies installer
    ensures installer.Valid()
    ensures installer.drains == [Polling, Polling] && installer.log == []
    ensures installer.requested == [a, b] && installer.pending == [c]
    ensures installer.request == Some(Request(b, None))
  {
    installer.InstallPackages([a, b]);
    installer.InstallPackages([c]);
  }

  /** Both drains of SubmitWhileBusy resume after their pause with c left in
      the queue: the first requests c, the second finds the queue empty. */
  method ResumeBoth(installer: Installer, c: string)
    requires installer.Valid()
    requires installer.drains == [CoolingDown, CoolingDown] && installer.pending == [c]
    modifies installer
    ensures installer.Valid()
    ensures installer.log == old(installer.log) + [Exception(QueueEmpty)]
    ensures installer.requested == old(installer.requested) + [c]
  {
    installer.CooldownElapsed(0);
    installer.CooldownElapsed(1);
  }

  /** As written: InstallPackages([a, b]) and, while a is in flight,
      InstallPackages([c]). The second call starts a second drain; both
      drains poll the shared `request`, so b's outcome is reported twice and
      a's never; both pause, the first takes c, and the second finds the
      queue empty and throws. */
  method OverlappingSubmissions(a: string, b: string, c: string, bId: string)
    returns (log: seq<LogEntry>, requested: seq<string>)
    ensures requested == [a, b, c]
    ensures log == [Info("Installed: " + bId), Info("Installed: " + bId), Exception(QueueEmpty)]
  {
    var installer := new Installer();
    SubmitWhileBusy(installer, a, b, c);
    installer.RequestCompletes(Completion(Success, bId, ""));
    installer.Poll(0);
    installer.Poll(1);
    ResumeBoth(installer, c);
    log, requested := installer.log, installer.requested;
  }

  /** The same submissions with InstallPackagesWhenIdle: one drain installs
      a, b and c in order and reports each once. */
  method OverlappingSubmissionsWhenIdle(a: string, b: string, c: string) returns (log: seq<LogEntry>, requested: seq<string>, idle: bool)
    ensures requested == [a, b, c]
    ensures log == [Info("Installed: " + a), Info("Installed: " + b), Info("Installed: " + c)]
    ensures idle
  {
    var installer := new Installer();
    installer.InstallPackagesWhenIdle([a, b]);
    installer.InstallPackagesWhenIdle([c]);
    FinishCurrent(installer, Completion(Success, a, ""));
    FinishCurrent(installer, Completion(Success, b, ""));
    FinishCurrent(installer, Completion(Success, c, ""));
    log, requested := installer.log, installer.requested;
    idle := installer.drains == [] && installer.pending == [];
  }
}
