/** Deployment records and the lifecycle operations that keep them in step with the cluster. */
module Deployments {
  import opened Common
  import opened Cluster
  import opened Kubernetes
  import Names = DnsNames

  datatype Status = Creating | Running | Stopped | Failed | Deleted

  datatype Record = Record(
    namespace: string,
    base: string,
    replicas: nat,
    desiredReplicas: nat,
    lastNonZeroReplicas: Option<nat>,
    status: Status,
    publicHostname: Option<string>,
    stoppedAt: Option<int>,
    lastRestartedAt: Option<int>,
    deletedAt: Option<int>)
  {
    function Workload(): Key { Key(namespace, Cluster.Workload, base) }
  }

  function NewRecord(namespace: string, base: string, replicas: nat, hostname: Option<string>): Record {
    Record(namespace, base, replicas, replicas, if replicas > 0 then Some(replicas) else None,
           Creating, hostname, None, None, None)
  }

  // ---------------------------------------------------------------- the record alone

  /** What a lifecycle operation writes once its cluster call has succeeded. */
  datatype Op =
    | Scale(replicas: nat, now: int)
    | Stop(now: int)
    | Start(count: Option<nat>)
    | Restart(at: int)
    | Observe(ready: nat)      // getStatus, `ready` replicas being ready
    | Delete(now: int)

  function StartCount(r: Record, count: Option<nat>): nat {
    match count
    case Some(n) => n
    case None => r.lastNonZeroReplicas.GetOr(if r.desiredReplicas > 0 then r.desiredReplicas else 1)
  }

  /** The operation's effect on a record; a deleted record can only be deleted again. */
  function Step(r: Record, op: Op): Record {
    if r.status == Deleted && !op.Delete? then r
    else
      match op
      case Scale(n, now) =>
        r.(replicas := n, desiredReplicas := n,
           lastNonZeroReplicas := if n > 0 then Some(n) else r.lastNonZeroReplicas,
           status := if n == 0 then Stopped else Creating,
           stoppedAt := if n == 0 then Some(now) else None)
      case Stop(now) =>
        r.(replicas := 0, desiredReplicas := 0,
           lastNonZeroReplicas := if r.replicas > 0 then Some(r.replicas) else r.lastNonZeroReplicas,
           status := Stopped, stoppedAt := Some(now))
      case Start(count) =>
        var n := StartCount(r, count);
        r.(replicas := n, desiredReplicas := n, lastNonZeroReplicas := Some(n), status := Creating, stoppedAt := None)
      case Restart(at) =>
        r.(status := Creating, lastRestartedAt := Some(at))
      case Observe(ready) =>
        if ready >= r.replicas && r.replicas > 0 then r.(status := Running) else r
      case Delete(now) =>
        r.(status := Deleted, deletedAt := Some(now), publicHostname := None)
  }

  function RunRecord(r: Record, ops: seq<Op>): Record {
    if ops == [] then r else Step(RunRecord(r, ops[..|ops| - 1]), ops[|ops| - 1])
  }

  /** The replica counts a record has been given, oldest first. */
  function Counts(r: Record, ops: seq<Op>): (h: seq<nat>)
    ensures h != []
  {
    if ops == [] then [r.replicas]
    else
      var before, now, op := RunRecord(r, ops[..|ops| - 1]), RunRecord(r, ops), ops[|ops| - 1];
      var h := Counts(r, ops[..|ops| - 1]);
      if before.status != Deleted && (op.Scale? || op.Stop? || op.Start?) then h + [now.replicas] else h
  }

  /** The most recent positive count. */
  function LastPositive(h: seq<nat>): (r: Option<nat>)
    ensures r.None? ==> forall i :: 0 <= i < |h| ==> h[i] == 0
    ensures r.Some? ==>
              exists i :: 0 <= i < |h| && h[i] == r.value > 0 && forall j :: i < j < |h| ==> h[j] == 0
  {
    if h == [] then None
    else if h[|h| - 1] > 0 then Some(h[|h| - 1])
    else LastPositive(h[..|h| - 1])
  }

  ghost predicate RecordInv(r: Record) {
    && r.replicas == r.desiredReplicas
    && (r.stoppedAt.Some? <==> r.replicas == 0)
    && (r.status == Running ==> r.replicas > 0)
    && (r.status == Stopped ==> r.replicas == 0)
    && r.lastNonZeroReplicas.Some? && r.lastNonZeroReplicas.value > 0
    && (r.replicas > 0 ==> r.lastNonZeroReplicas == Some(r.replicas))
  }

  /** DTO minimum: a count passed to start is at least one. */
  predicate Allowed(op: Op) {
    op.Start? && op.count.Some? ==> op.count.value >= 1
  }

  lemma StepKeepsRecord(r: Record, op: Op)
    requires RecordInv(r) && Allowed(op)
    ensures RecordInv(Step(r, op))
    ensures var now := Step(r, op);
            if r.status != Deleted && (op.Scale? || op.Stop? || op.Start?)
            then now.lastNonZeroReplicas == if now.replicas > 0 then Some(now.replicas) else r.lastNonZeroReplicas
            else now.replicas == r.replicas && now.lastNonZeroReplicas == r.lastNonZeroReplicas
  {
  }

  lemma LastPositiveSnoc(h: seq<nat>, n: nat)
    ensures LastPositive(h + [n]) == if n > 0 then Some(n) else LastPositive(h)
  {
    assert (h + [n])[..|h + [n]| - 1] == h;
  }

  /** Over every run of lifecycle operations on a created record. */
  lemma {:induction false} RecordRun(r: Record, ops: seq<Op>)
    requires RecordInv(r)
    requires forall i :: 0 <= i < |ops| ==> Allowed(ops[i])
    ensures var last, h := RunRecord(r, ops), Counts(r, ops);
            && RecordInv(last)
            && last.replicas == h[|h| - 1]
            && last.lastNonZeroReplicas == (if LastPositive(h).Some? then LastPositive(h) else r.lastNonZeroReplicas)
    decreases |ops|
  {
    if ops == [] {
      LastPositiveSnoc([], r.replicas);
      assert [] + [r.replicas] == [r.replicas];
    } else {
      hide Step, RecordInv;
      var init, op := ops[..|ops| - 1], ops[|ops| - 1];
      RecordRun(r, init);
      StepKeepsRecord(RunRecord(r, init), op);
      LastPositiveSnoc(Counts(r, init), RunRecord(r, ops).replicas);
    }
  }

  /** A start without a count restores the last positive count, whatever came before. */
  lemma StartRestores(r: Record, ops: seq<Op>)
    requires RecordInv(r) && r.replicas > 0
    requires forall i :: 0 <= i < |ops| ==> Allowed(ops[i])
    requires RunRecord(r, ops).status != Deleted
    ensures LastPositive(Counts(r, ops)) == Some(RunRecord(r, ops + [Start(None)]).replicas)
  {
    RecordRun(r, ops);
    CountsStartPositive(r, ops);
    assert (ops + [Start(None)])[..|ops + [Start(None)]| - 1] == ops;
  }

  lemma {:induction false} CountsStartPositive(r: Record, ops: seq<Op>)
    ensures Counts(r, ops)[0] == r.replicas
    decreases |ops|
  {
    if ops != [] { CountsStartPositive(r, ops[..|ops| - 1]); }
  }

  /** The deployment has been restarted since its last scale, stop or start. */
  predicate RestartedSince(ops: seq<Op>) {
    if ops == [] then false
    else
      match ops[|ops| - 1]
      case Restart(_) => true
      case Scale(_, _) => false
      case Stop(_) => false
      case Start(_) => false
      case _ => RestartedSince(ops[..|ops| - 1])
  }

  lemma StepStopped(r: Record, op: Op, restarted: bool)
    requires RecordInv(r) && Allowed(op)
    requires r.status == Stopped <==> r.status != Deleted && r.replicas == 0 && !restarted
    ensures var now := Step(r, op);
            now.status == Stopped <==> now.status != Deleted && now.replicas == 0 &&
                                       !(op.Restart? || (restarted && (op.Observe? || op.Delete?)))
  {
  }

  /** A live record with no replicas is `stopped` exactly when it was not restarted since it lost them. */
  lemma {:induction false} StoppedIffNotRestarted(r: Record, ops: seq<Op>)
    requires RecordInv(r) && r.replicas > 0
    requires forall i :: 0 <= i < |ops| ==> Allowed(ops[i])
    ensures var last := RunRecord(r, ops);
            last.status == Stopped <==> last.status != Deleted && last.replicas == 0 && !RestartedSince(ops)
    decreases |ops|
  {
    if ops != [] {
      hide Step, RecordInv;
      var init, op := ops[..|ops| - 1], ops[|ops| - 1];
      RecordRun(r, init);
      StoppedIffNotRestarted(r, init);
      StepStopped(RunRecord(r, init), op, RestartedSince(init));
    } else {
      assert r.status != Stopped;
    }
  }

  /** The deployment has been seen fully ready since its last scale, stop, start or restart. */
  predicate ReadySince(r: Record, ops: seq<Op>) {
    if ops == [] then false
    else
      var init, op := ops[..|ops| - 1], ops[|ops| - 1];
      match op
      case Observe(ready) => 0 < RunRecord(r, init).replicas <= ready || ReadySince(r, init)
      case Delete(_) => ReadySince(r, init)
      case _ => false
  }

  lemma StepRunning(r: Record, op: Op, ready: bool)
    requires r.status == Running <==> r.status != Deleted && ready
    ensures var now := Step(r, op);
            now.status == Running <==>
              && now.status != Deleted
              && ((op.Observe? && 0 < r.replicas <= op.ready) || (ready && (op.Observe? || op.Delete?)))
  {
  }

  /** A live record is `running` exactly when it was seen fully ready, with replicas, since it was last changed. */
  lemma {:induction false} RunningIffReady(r: Record, ops: seq<Op>)
    requires r.status == Creating || r.status == Status.Failed
    ensures RunRecord(r, ops).status == Running <==> RunRecord(r, ops).status != Deleted && ReadySince(r, ops)
    decreases |ops|
  {
    if ops != [] {
      hide Step;
      var init, op := ops[..|ops| - 1], ops[|ops| - 1];
      RunningIffReady(r, init);
      StepRunning(RunRecord(r, init), op, ReadySince(r, init));
    }
  }

  /** A restart of a stopped deployment: the status is `creating` although no replica is wanted. */
  lemma RestartedWhileStopped(now: int)
    ensures var r := RunRecord(NewRecord("ns", "app-0", 1, None), [Stop(now), Restart(now)]);
            r.status == Creating && r.replicas == 0 && r.stoppedAt.Some?
  {
    var r, ops := NewRecord("ns", "app-0", 1, None), [Stop(now), Restart(now)];
    assert ops[..1] == [Stop(now)] && [Stop(now)][..0] == [];
    assert RunRecord(r, [Stop(now)]) == Step(r, Stop(now));
  }

  // ---------------------------------------------------------------- the service

  datatype Request = Request(
    replicas: Option<nat>,
    port: Option<nat>,               // the request's port or the app's default
    secrets: map<string, string>,
    files: seq<string>,
    secretFiles: seq<string>,
    hostname: Option<string>)        // the public hostname of an exposed deployment

  datatype CreateError = PortRequired | ClusterError

  function BaseName(appName: string, id: string): string {
    Names.BuildResourceNames(appName, id).deployment
  }

  function InputFor(request: Request, namespace: string, base: string): Input {
    Input(namespace, base, request.replicas.GetOr(1), request.secrets, request.files, request.secretFiles,
          request.hostname.Some?)
  }

  /** What the cluster holds of a record's deployment agrees with the record. */
  ghost predicate InStep(r: Record, objects: Objects) {
    && (r.Workload() in objects ==>
          objects[r.Workload()].Deployed? && objects[r.Workload()].manifest.replicas == r.replicas)
    && (r.publicHostname.None? ==> NoRoutes(r.namespace, r.base, objects))
    && (r.status == Deleted ==> Fresh(r.namespace, r.base, objects))
  }

  ghost predicate AllInStep(records: map<string, Record>, objects: Objects) {
    forall id :: id in records ==> RecordInv(records[id]) && InStep(records[id], objects)
  }

  ghost predicate DistinctBases(records: map<string, Record>) {
    forall a, b :: a in records && b in records && a != b ==>
      (records[a].namespace, records[a].base) != (records[b].namespace, records[b].base)
  }

  /** A record stays in step when the objects of another deployment change. */
  lemma OtherInStep(r: Record, namespace: string, base: string, before: Objects, after: Objects)
    requires InStep(r, before) && SameElsewhere(namespace, base, before, after)
    requires (r.namespace, r.base) != (namespace, base)
    ensures InStep(r, after)
  {
    forall k | OwnedBy(r.namespace, r.base, k)
      ensures (k in before <==> k in after) && (k in before ==> before[k] == after[k])
    {
      if OwnedBy(namespace, base, k) { OwnersAreDisjoint(r.namespace, r.base, namespace, base, k); }
    }
    assert OwnedBy(r.namespace, r.base, r.Workload());
  }

  /** One record and its own objects change, consistently; all the others stay in step. */
  lemma OneChanges(records: map<string, Record>, id: string, r: Record, before: Objects, after: Objects)
    requires AllInStep(records, before) && DistinctBases(records)
    requires SameElsewhere(r.namespace, r.base, before, after)
    requires forall x :: x in records && x != id ==> (records[x].namespace, records[x].base) != (r.namespace, r.base)
    requires RecordInv(r) && InStep(r, after)
    ensures AllInStep(records[id := r], after) && DistinctBases(records[id := r])
  {
    forall x | x in records && x != id ensures InStep(records[x], after) {
      OtherInStep(records[x], r.namespace, r.base, before, after);
    }
  }

  /** Records and cluster agree, and every record's names are its own and managed here. */
  ghost predicate Consistent(records: map<string, Record>, objects: Objects, managed: iset<(string, string)>) {
    && AllInStep(records, objects) && DistinctBases(records)
    && forall id :: id in records ==> (records[id].namespace, records[id].base) in managed
  }

  lemma ConsistentRecord(records: map<string, Record>, objects: Objects, managed: iset<(string, string)>, id: string)
    requires Consistent(records, objects, managed) && id in records
    ensures (records[id].namespace, records[id].base) in managed && RecordInv(records[id])
    ensures records[id].Workload() in objects ==> records[id].status != Deleted
    ensures records[id].Workload() in objects ==>
              objects[records[id].Workload()].Deployed? && objects[records[id].Workload()].manifest.replicas == records[id].replicas
    ensures records[id].publicHostname.None? ==> NoRoutes(records[id].namespace, records[id].base, objects)
  {
    assert InStep(records[id], objects);
    assert OwnedBy(records[id].namespace, records[id].base, records[id].Workload());
  }

  /** Patching a live record's Deployment to the replicas the operation writes keeps every record in step. */
  lemma ScaleChanges(records: map<string, Record>, id: string, op: Op, objects: Objects, managed: iset<(string, string)>)
    requires Consistent(records, objects, managed) && id in records && records[id].Workload() in objects
    requires (op.Scale? || op.Stop? || op.Start?) && Allowed(op)
    ensures var r := Step(records[id], op);
            Consistent(records[id := r], Scaled(objects, r.Workload(), r.replicas), managed)
  {
    ConsistentRecord(records, objects, managed, id);
    var r := Step(records[id], op);
    StepKeepsRecord(records[id], op);
    assert InStep(records[id], objects) && OwnedBy(r.namespace, r.base, r.Workload());
    hide RecordInv;
    OneChanges(records, id, r, objects, Scaled(objects, r.Workload(), r.replicas));
  }

  /** So does the restart of a live record's Deployment. */
  lemma RestartChanges(records: map<string, Record>, id: string, now: int, objects: Objects, managed: iset<(string, string)>)
    requires Consistent(records, objects, managed) && id in records && records[id].Workload() in objects
    ensures var r := Step(records[id], Op.Restart(now));
            Consistent(records[id := r], Restarted(objects, r.Workload(), now), managed)
  {
    ConsistentRecord(records, objects, managed, id);
    var r := Step(records[id], Op.Restart(now));
    StepKeepsRecord(records[id], Op.Restart(now));
    assert InStep(records[id], objects) && OwnedBy(r.namespace, r.base, r.Workload());
    hide RecordInv;
    OneChanges(records, id, r, objects, Restarted(objects, r.Workload(), now));
  }

  /** A status read of a live record writes at most its status. */
  lemma ObserveChanges(records: map<string, Record>, id: string, ready: nat, objects: Objects, managed: iset<(string, string)>)
    requires Consistent(records, objects, managed) && id in records
    ensures Consistent(records[id := Step(records[id], Observe(ready))], objects, managed)
  {
    assert InStep(records[id], objects);
    OneChanges(records, id, Step(records[id], Observe(ready)), objects, objects);
  }

  /** A deletion, complete or not, changes only the record's own objects. */
  lemma DeleteChanges(records: map<string, Record>, id: string, ok: bool, now: int, before: Objects, after: Objects, managed: iset<(string, string)>)
    requires Consistent(records, before, managed) && id in records
    requires Shrunk(records[id].namespace, records[id].base, before, after)
    requires ok ==> Fresh(records[id].namespace, records[id].base, after)
    ensures Consistent(if ok then records[id := Step(records[id], Op.Delete(now))] else records, after, managed)
  {
    var was := records[id];
    var r := if ok then Step(was, Op.Delete(now)) else was;
    StepKeepsRecord(was, Op.Delete(now));
    assert InStep(was, before) && OwnedBy(r.namespace, r.base, r.Workload());
    hide RecordInv;
    assert InStep(r, after);
    OneChanges(records, id, r, before, after);
    assert records[id := was] == records;
  }

  /** However far its deployment got, a new record is in step. */
  lemma CreationChanges(records: map<string, Record>, id: string, r: Record, input: Input, before: Objects, after: Objects, managed: iset<(string, string)>)
    requires Consistent(records, before, managed) && id !in records && RecordInv(r) && (r.namespace, r.base) in managed
    requires forall x :: x in records ==> (records[x].namespace, records[x].base) != (r.namespace, r.base)
    requires Partial(input, before, after) && r.status in {Creating, Status.Failed}
    requires input.namespace == r.namespace && input.base == r.base && input.replicas == r.replicas
    requires input.exposed <==> r.publicHostname.Some?
    ensures Consistent(records[id := r], after, managed)
  {
    assert OwnedBy(r.namespace, r.base, r.Workload());
    assert InStep(r, after);
    OneChanges(records, id, r, before, after);
  }

  class DeploymentsService {
    const kubernetes: KubernetesService
    var records: map<string, Record>

    constructor (kubernetes: KubernetesService)
      requires kubernetes.api.AlwaysGood()
      ensures this.kubernetes == kubernetes && records == map[] && Valid()
    {
      this.kubernetes := kubernetes;
      records := map[];
    }

    ghost function Objects(): Objects
      reads this, kubernetes.api
    {
      kubernetes.api.objects
    }

    ghost predicate Valid()
      reads this, kubernetes.api
    {
      kubernetes.api.AlwaysGood() && Consistent(records, Objects(), kubernetes.api.managed)
    }

    /** The calls made since number `from` all succeeded. */
    ghost predicate NoneFailed(from: nat)
      reads kubernetes.api
    {
      kubernetes.api.NoneFailed(from)
    }

    /** The record's Deployment is in the cluster. */
    ghost predicate Live(id: string)
      reads this, kubernetes.api
    {
      id in records && records[id].Workload() in Objects()
    }

    // Stores the record, then creates its resources; a cluster error marks the record failed.
    method Create(id: string, appName: string, namespace: string, request: Request)
      returns (result: Result<Record, CreateError>)
      requires Valid() && id !in records
      requires request.replicas.Some? ==> request.replicas.value >= 1
      requires (namespace, BaseName(appName, id)) in kubernetes.api.managed && Fresh(namespace, BaseName(appName, id), Objects())
      requires forall x :: x in records ==> (records[x].namespace, records[x].base) != (namespace, BaseName(appName, id))
      modifies this, kubernetes.api
      ensures old(kubernetes.api.trace) <= kubernetes.api.trace
      ensures Valid()
      ensures result == Err(PortRequired) <==> request.port.None?
      ensures request.port.Some? ==> (result.Ok? <==> kubernetes.Configurable() && NoneFailed(old(kubernetes.api.calls)))
      ensures request.port.None? ==> records == old(records) && Objects() == old(Objects())
      ensures request.port.Some? ==> Partial(InputFor(request, namespace, BaseName(appName, id)), old(Objects()), Objects())
      ensures result.Ok? ==>
                && result.value == NewRecord(namespace, BaseName(appName, id), request.replicas.GetOr(1), request.hostname)
                && records == old(records)[id := result.value]
                && Complete(InputFor(request, namespace, BaseName(appName, id)), Objects())
                && Key("", Namespace, namespace) in Objects()
      ensures result.Ok? && kubernetes.policiesEnabled ==>
                forall i :: 0 <= i < |POLICY_NAMES| ==> Key(namespace, NetworkPolicy, POLICY_NAMES[i]) in Objects()
      ensures result.Ok? ==>
                && result.value.status == Creating && result.value.publicHostname == request.hostname
                && result.value.replicas == (if request.replicas.Some? then request.replicas.value else 1)
                && Live(id) && Objects()[records[id].Workload()].Deployed?
                && Objects()[records[id].Workload()].manifest.replicas == result.value.replicas
      ensures result == Err(ClusterError) ==>
                records == old(records)[id := NewRecord(namespace, BaseName(appName, id), request.replicas.GetOr(1), request.hostname)
                                              .(status := Status.Failed)]
    {
      hide Consistent, Partial, Complete;
      if request.port.None? { return Err(PortRequired); }
      ghost var was, before := records, Objects();
      var input := InputFor(request, namespace, BaseName(appName, id));
      var record := NewRecord(namespace, input.base, input.replicas, request.hostname);
      records := records[id := record];
      var ok := kubernetes.DeployImage(input);
      result := if ok then Ok(record) else Err(ClusterError);
      if !ok {
        record := record.(status := Status.Failed);
        records := records[id := record];
      }
      CreationChanges(was, id, record, input, before, Objects(), kubernetes.api.managed);
      if ok { CompleteMeans(input, before, Objects()); }
      assert records == was[id := record];
    }

    // Reads the live status; a fully ready deployment with replicas becomes `running`.
    method GetStatus(id: string, ready: nat) returns (status: Option<Status>)
      requires Valid()
      modifies this, kubernetes.api
      ensures old(kubernetes.api.trace) <= kubernetes.api.trace
      ensures Valid() && Objects() == old(Objects())
      ensures status.None? ==> records == old(records)
      ensures status.Some? <==>
                && id in old(records)
                && (old(records)[id].status == Deleted || (Live(id) && NoneFailed(old(kubernetes.api.calls))))
      ensures status.Some? ==>
                && id in old(records)
                && records == old(records)[id := Step(old(records)[id], Observe(ready))]
                && status.value == records[id].status
      ensures id in old(records) && old(records)[id].status == Deleted ==>
                status == Some(Deleted) && kubernetes.api.calls == old(kubernetes.api.calls)
      ensures status.Some? && old(records)[id].status != Deleted ==>
                var before := old(records)[id].status;
                && Live(id) && Objects()[records[id].Workload()].Deployed?
                && (status.value == Running <==>
                      before == Running || 0 < Objects()[records[id].Workload()].manifest.replicas <= ready)
                && (status.value != Running ==> status.value == before)
    {
      hide Consistent, RecordInv;
      if id !in records { return None; }
      var r := records[id];
      ConsistentRecord(records, Objects(), kubernetes.api.managed, id);
      ObserveChanges(records, id, ready, Objects(), kubernetes.api.managed);
      if r.status == Deleted {
        assert records == records[id := r];
        return Some(Deleted);
      }
      var live := kubernetes.GetDeploymentReplicas(r.namespace, r.base);
      if live.None? { return None; }
      var next := if ready >= live.value && live.value > 0 then Running else r.status;
      if next != r.status { records := records[id := r.(status := next)]; }
      return Some(next);
    }

    method Scale(id: string, replicas: nat, now: int) returns (ok: bool)
      requires Valid()
      modifies this, kubernetes.api
      ensures old(kubernetes.api.trace) <= kubernetes.api.trace
      ensures Valid()
      ensures ok <==> old(Live(id)) && NoneFailed(old(kubernetes.api.calls))
      ensures id in old(records) && old(records)[id].status == Deleted ==> !ok
      ensures ok ==>
                && id in records && records[id].replicas == replicas
                && records[id].stoppedAt == (if replicas == 0 then Some(now) else None)
                && records[id].status == (if replicas == 0 then Stopped else Creating)
      ensures !ok ==> records == old(records) && Objects() == old(Objects())
      ensures ok ==>
                && id in old(records) && old(records)[id].status != Deleted
                && records == old(records)[id := Step(old(records)[id], Op.Scale(replicas, now))]
                && Objects() == Scaled(old(Objects()), old(records)[id].Workload(), replicas)
    {
      hide Consistent, RecordInv;
      if id !in records { return false; }
      var r := records[id];
      ghost var was, before := records, Objects();
      ConsistentRecord(records, before, kubernetes.api.managed, id);
      ok := kubernetes.ScaleDeployment(r.namespace, r.base, replicas);
      if ok {
        records := records[id := r.(replicas := replicas, desiredReplicas := replicas,
                                    lastNonZeroReplicas := if replicas > 0 then Some(replicas) else r.lastNonZeroReplicas,
                                    status := if replicas == 0 then Stopped else Creating,
                                    stoppedAt := if replicas == 0 then Some(now) else None)];
        ScaleChanges(was, id, Op.Scale(replicas, now), before, kubernetes.api.managed);
      }
    }

    method Stop(id: string, now: int) returns (ok: bool)
      requires Valid()
      modifies this, kubernetes.api
      ensures old(kubernetes.api.trace) <= kubernetes.api.trace
      ensures Valid()
      ensures ok <==> old(Live(id)) && NoneFailed(old(kubernetes.api.calls))
      ensures id in old(records) && old(records)[id].status == Deleted ==> !ok
      ensures ok ==>
                id in records && records[id].replicas == 0 && records[id].stoppedAt == Some(now) && records[id].status == Stopped
      ensures !ok ==> records == old(records) && Objects() == old(Objects())
      ensures ok ==>
                && id in old(records) && old(records)[id].status != Deleted
                && records == old(records)[id := Step(old(records)[id], Op.Stop(now))]
                && Objects() == Scaled(old(Objects()), old(records)[id].Workload(), 0)
    {
      hide Consistent, RecordInv;
      if id !in records { return false; }
      var r := records[id];
      ghost var was, before := records, Objects();
      ConsistentRecord(records, before, kubernetes.api.managed, id);
      ok := kubernetes.ScaleDeployment(r.namespace, r.base, 0);
      if ok {
        records := records[id := r.(replicas := 0, desiredReplicas := 0,
                                    lastNonZeroReplicas := if r.replicas > 0 then Some(r.replicas) else r.lastNonZeroReplicas,
                                    status := Stopped, stoppedAt := Some(now))];
        ScaleChanges(was, id, Op.Stop(now), before, kubernetes.api.managed);
      }
    }

    method Start(id: string, count: Option<nat>) returns (ok: bool)
      requires Valid() && (count.Some? ==> count.value >= 1)
      modifies this, kubernetes.api
      ensures old(kubernetes.api.trace) <= kubernetes.api.trace
      ensures Valid()
      ensures ok <==> old(Live(id)) && NoneFailed(old(kubernetes.api.calls))
      ensures id in old(records) && old(records)[id].status == Deleted ==> !ok
      ensures ok ==>
                && id in records && records[id].stoppedAt == None && records[id].status == Creating
                && (count.Some? ==> records[id].replicas == count.value)
      ensures !ok ==> records == old(records) && Objects() == old(Objects())
      ensures ok ==>
                && id in old(records) && old(records)[id].status != Deleted
                && records == old(records)[id := Step(old(records)[id], Op.Start(count))]
                && Objects() == Scaled(old(Objects()), old(records)[id].Workload(), records[id].replicas)
    {
      hide Consistent, RecordInv;
      if id !in records { return false; }
      var r := records[id];
      var replicas := if count.Some? then count.value
                      else if r.lastNonZeroReplicas.Some? then r.lastNonZeroReplicas.value
                      else if r.desiredReplicas > 0 then r.desiredReplicas else 1;
      ghost var was, before := records, Objects();
      ConsistentRecord(records, before, kubernetes.api.managed, id);
      ok := kubernetes.ScaleDeployment(r.namespace, r.base, replicas);
      if ok {
        records := records[id := r.(replicas := replicas, desiredReplicas := replicas, lastNonZeroReplicas := Some(replicas),
                                    status := Creating, stoppedAt := None)];
        assert records[id] == Step(r, Op.Start(count));
        ScaleChanges(was, id, Op.Start(count), before, kubernetes.api.managed);
      }
    }

    method Restart(id: string, now: int) returns (ok: bool)
      requires Valid()
      modifies this, kubernetes.api
      ensures old(kubernetes.api.trace) <= kubernetes.api.trace
      ensures Valid()
      ensures ok <==> old(Live(id)) && NoneFailed(old(kubernetes.api.calls))
      ensures id in old(records) && old(records)[id].status == Deleted ==> !ok
      ensures ok ==> id in records && records[id].lastRestartedAt == Some(now) && records[id].status == Creating
      ensures !ok ==> records == old(records) && Objects() == old(Objects())
      ensures ok ==>
                && id in old(records) && old(records)[id].status != Deleted
                && records == old(records)[id := Step(old(records)[id], Op.Restart(now))]
                && Objects() == Restarted(old(Objects()), old(records)[id].Workload(), now)
    {
      hide Consistent, RecordInv;
      if id !in records { return false; }
      var r := records[id];
      ghost var was, before := records, Objects();
      ConsistentRecord(records, before, kubernetes.api.managed, id);
      ok := kubernetes.RestartDeployment(r.namespace, r.base, now);
      if ok {
        records := records[id := r.(status := Creating, lastRestartedAt := Some(now))];
        RestartChanges(was, id, now, before, kubernetes.api.managed);
      }
    }

    // Removes the resources, then marks the record deleted.  After a failure at any call the record is
    // as it was and some resources are gone; a later deletion succeeds as soon as none of its own calls
    // fails, and then none of them is left.
    method Delete(id: string, now: int) returns (ok: bool)
      requires Valid()
      modifies this, kubernetes.api
      ensures old(kubernetes.api.trace) <= kubernetes.api.trace
      ensures Valid()
      ensures ok <==> id in old(records) && NoneFailed(old(kubernetes.api.calls))
      ensures ok ==>
                && id in records && records[id].status == Deleted && records[id].deletedAt == Some(now)
                && records[id].publicHostname == None
      ensures !ok ==> records == old(records)
      ensures id !in old(records) ==> !ok && Objects() == old(Objects())
      ensures id in old(records) ==> Shrunk(old(records)[id].namespace, old(records)[id].base, old(Objects()), Objects())
      ensures ok ==>
                && id in old(records)
                && records == old(records)[id := Step(old(records)[id], Op.Delete(now))]
                && Fresh(records[id].namespace, records[id].base, Objects())
    {
      hide Consistent, RecordInv;
      if id !in records { return false; }
      var r := records[id];
      ghost var was, before := records, Objects();
      ConsistentRecord(records, before, kubernetes.api.managed, id);
      ok := kubernetes.DeleteDeploymentResources(r.namespace, r.base, r.publicHostname.Some?);
      if ok {
        records := records[id := r.(status := Deleted, deletedAt := Some(now), publicHostname := None)];
      }
      DeleteChanges(was, id, ok, now, before, Objects(), kubernetes.api.managed);
    }
  }
}
