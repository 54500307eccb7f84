/**
 The Kubernetes API as an object store.  Any call may fail without effect: `fails` says which,
 and every property holds for every choice of it.  The store's ghost trace holds its contents
 after each call.
 */
module Cluster {
  import opened Common
  import Names = DnsNames

  datatype Kind = Namespace | NetworkPolicy | ConfigMap | Secret | Workload | Service | HttpRoute

  datatype Key = Key(namespace: string, kind: Kind, name: string)

  datatype EnvSource = ConfigMapRef(name: string) | SecretRef(name: string)

  datatype Volume = ConfigMapVolume(name: string, configMap: string) | SecretVolume(name: string, secret: string)

  datatype Mount = Mount(volume: string, path: string)

  /** The parts of a Deployment manifest that refer to other objects, and its replica count. */
  datatype Manifest = Manifest(replicas: nat, envFrom: seq<EnvSource>, volumes: seq<Volume>, mounts: seq<Mount>)

  datatype Obj =
    | Plain                                                        // Namespace, NetworkPolicy, ConfigMap, Secret, Service
    | Deployed(manifest: Manifest, restartedAt: Option<int>)
    | Route(backend: Option<string>)                               // the backend Service, none for a redirect

  type Objects = map<Key, Obj>

  datatype Reply = Done | NotFound | Conflict | Failed

  /** The ConfigMaps and Secrets a manifest refers to. */
  function References(m: Manifest): set<(Kind, string)> {
    (set e | e in m.envFrom :: if e.ConfigMapRef? then (ConfigMap, e.name) else (Secret, e.name)) +
    (set v | v in m.volumes :: if v.ConfigMapVolume? then (ConfigMap, v.configMap) else (Secret, v.secret))
  }

  /** The object is one of the resources of the deployment with this base name. */
  predicate OwnedBy(namespace: string, base: string, k: Key) {
    var n := Names.NamesFromBase(base);
    k.namespace == namespace &&
    match k.kind
    case Namespace => false
    case NetworkPolicy => false
    case ConfigMap => k.name == n.configMap || k.name == n.fileConfigMap
    case Secret => k.name == n.secret || k.name == n.secretFiles
    case Workload => k.name == n.deployment
    case Service => k.name == n.service
    case HttpRoute => k.name == n.httpRoute || k.name == n.httpRedirectRoute
  }

  /** Every reference of the deployment's manifest, and the backend of its routes, exists and is its own. */
  ghost predicate Linked(namespace: string, base: string, objects: Objects) {
    var n := Names.NamesFromBase(base);
    var w := Key(namespace, Workload, n.deployment);
    && (w in objects ==>
          && objects[w].Deployed?
          && forall r :: r in References(objects[w].manifest) ==>
               && r.0 in {ConfigMap, Secret} && OwnedBy(namespace, base, Key(namespace, r.0, r.1))
               && Key(namespace, r.0, r.1) in objects)
    && (forall k :: k in objects && k.kind == HttpRoute && OwnedBy(namespace, base, k) ==>
          && objects[k].Route?
          && (objects[k].backend.Some? ==>
                objects[k].backend.value == n.service && Key(namespace, Service, n.service) in objects))
  }

  /** Every deployment whose names are managed here is linked; whatever else the cluster holds is free. */
  ghost predicate Good(managed: iset<(string, string)>, objects: Objects) {
    forall b :: b in managed ==> Linked(b.0, b.1, objects)
  }

  /** Namespaces and their network policies, which belong to no deployment. */
  predicate IsTenancy(k: Key) {
    k.kind in {Namespace, NetworkPolicy}
  }

  /** Nothing but the deployment's own resources differs (namespaces and their policies may). */
  ghost predicate SameElsewhere(namespace: string, base: string, before: Objects, after: Objects) {
    forall k :: !OwnedBy(namespace, base, k) && !IsTenancy(k) ==>
      (k in before <==> k in after) && (k in before ==> before[k] == after[k])
  }

  lemma SameSuffix(a: string, b: string, suffix: string)
    requires a + suffix == b + suffix
    ensures a == b
  {
    assert |a| == |b|;
    assert (a + suffix)[..|a|] == a && (b + suffix)[..|b|] == b;
  }

  lemma OtherSuffix(a: string, s: string, b: string, t: string)
    requires s != "" && t != "" && s[|s| - 1] != t[|t| - 1]
    ensures a + s != b + t
  {
    assert (a + s)[|a + s| - 1] == s[|s| - 1];
    assert (b + t)[|b + t| - 1] == t[|t| - 1];
  }

  /** Deployments with different base names own different objects. */
  lemma OwnersAreDisjoint(ns1: string, base1: string, ns2: string, base2: string, k: Key)
    requires OwnedBy(ns1, base1, k) && OwnedBy(ns2, base2, k)
    ensures ns1 == ns2 && base1 == base2
  {
    var a, b := Names.NamesFromBase(base1), Names.NamesFromBase(base2);
    match k.kind
    case ConfigMap =>
      OtherSuffix(base1, "-env", base2, "-files");
      OtherSuffix(base1, "-files", base2, "-env");
      if k.name == a.configMap { SameSuffix(base1, base2, "-env"); } else { SameSuffix(base1, base2, "-files"); }
    case Secret =>
      OtherSuffix(base1, "-secret", base2, "-secret-files");
      OtherSuffix(base1, "-secret-files", base2, "-secret");
      if k.name == a.secret { SameSuffix(base1, base2, "-secret"); } else { SameSuffix(base1, base2, "-secret-files"); }
    case Workload =>
    case Service => SameSuffix(base1, base2, "-svc");
    case HttpRoute =>
      OtherSuffix(base1, "-route", base2, "-redirect");
      OtherSuffix(base1, "-redirect", base2, "-route");
      if k.name == a.httpRoute { SameSuffix(base1, base2, "-route"); } else { SameSuffix(base1, base2, "-redirect"); }
  }

  /** Being linked depends on the deployment's own resources only. */
  lemma LinkedFrame(namespace: string, base: string, before: Objects, after: Objects)
    requires Linked(namespace, base, before)
    requires forall k :: OwnedBy(namespace, base, k) ==> (k in before <==> k in after) && (k in before ==> before[k] == after[k])
    ensures Linked(namespace, base, after)
  {
    var n := Names.NamesFromBase(base);
    assert OwnedBy(namespace, base, Key(namespace, Workload, n.deployment));
    assert OwnedBy(namespace, base, Key(namespace, Service, n.service));
  }

  /** So a change to one deployment's resources that links it again keeps all the others linked. */
  lemma GoodFrame(managed: iset<(string, string)>, namespace: string, base: string, before: Objects, after: Objects)
    requires Good(managed, before) && SameElsewhere(namespace, base, before, after)
    requires Linked(namespace, base, after)
    ensures Good(managed, after)
  {
    forall b | b in managed && b != (namespace, base) ensures Linked(b.0, b.1, after) {
      forall k | OwnedBy(b.0, b.1, k) ensures !OwnedBy(namespace, base, k) && !IsTenancy(k) {
        if OwnedBy(namespace, base, k) { OwnersAreDisjoint(b.0, b.1, namespace, base, k); }
      }
      LinkedFrame(b.0, b.1, before, after);
    }
  }

  /** Only namespaces and policies were added or replaced. */
  ghost predicate TenancyOnly(before: Objects, after: Objects) {
    && before.Keys <= after.Keys
    && forall k :: !IsTenancy(k) ==> (k in before <==> k in after) && (k in before ==> before[k] == after[k])
  }

  lemma TenancyKeeps(managed: iset<(string, string)>, before: Objects, after: Objects)
    requires Good(managed, before) && TenancyOnly(before, after)
    ensures Good(managed, after)
  {
    forall b | b in managed ensures Linked(b.0, b.1, after) {
      LinkedFrame(b.0, b.1, before, after);
    }
  }

  class Api {
    const fails: nat -> bool
    ghost const managed: iset<(string, string)>   // the (namespace, base name) pairs this service generates
    var calls: nat
    var objects: Objects
    ghost var trace: seq<Objects>

    constructor (fails: nat -> bool, objects: Objects, ghost managed: iset<(string, string)>)
      ensures this.fails == fails && this.managed == managed && this.objects == objects && calls == 0 && trace == []
    {
      this.fails, this.managed, this.objects, calls, trace := fails, managed, objects, 0, [];
    }

    /** The trace has one entry for each call, and everything the store held after any of them, or holds now, is good. */
    ghost predicate AlwaysGood()
      reads this
    {
      |trace| == calls && Good(managed, objects) && forall i :: 0 <= i < |trace| ==> Good(managed, trace[i])
    }

    /** No call from number `from` on has failed. */
    ghost predicate NoneFailed(from: nat)
      reads this
    {
      forall i :: from <= i < calls ==> !fails(i)
    }

    /** The calls since the trace was `before` left the store as it was then or as it is now. */
    twostate predicate OnlyStates(before: Objects, after: Objects)
      reads this
    {
      && old(trace) <= trace && |trace| - |old(trace)| == calls - old(calls)
      && forall i :: |old(trace)| <= i < |trace| ==> trace[i] == before || trace[i] == after
    }

    method Read(k: Key) returns (reply: Reply)
      modifies this`calls, this`trace
      ensures trace == old(trace) + [objects]
      ensures calls == old(calls) + 1
      ensures reply == if fails(old(calls)) then Failed else if k in objects then Done else NotFound
    {
      reply := if fails(calls) then Failed else if k in objects then Done else NotFound;
      calls := calls + 1;
      trace := trace + [objects];
    }

    method Create(k: Key, o: Obj) returns (reply: Reply)
      modifies this`calls, this`objects, this`trace
      ensures trace == old(trace) + [objects]
      ensures calls == old(calls) + 1
      ensures reply == if fails(old(calls)) then Failed else if k in old(objects) then Conflict else Done
      ensures objects == if reply == Done then old(objects)[k := o] else old(objects)
    {
      reply := if fails(calls) then Failed else if k in objects then Conflict else Done;
      if reply == Done { objects := objects[k := o]; }
      calls := calls + 1;
      trace := trace + [objects];
    }

    method Replace(k: Key, o: Obj) returns (reply: Reply)
      modifies this`calls, this`objects, this`trace
      ensures trace == old(trace) + [objects]
      ensures calls == old(calls) + 1
      ensures reply == if fails(old(calls)) then Failed else if k in old(objects) then Done else NotFound
      ensures objects == if reply == Done then old(objects)[k := o] else old(objects)
    {
      reply := if fails(calls) then Failed else if k in objects then Done else NotFound;
      if reply == Done { objects := objects[k := o]; }
      calls := calls + 1;
      trace := trace + [objects];
    }

    method Delete(k: Key) returns (reply: Reply)
      modifies this`calls, this`objects, this`trace
      ensures trace == old(trace) + [objects]
      ensures calls == old(calls) + 1
      ensures reply == if fails(old(calls)) then Failed else if k in old(objects) then Done else NotFound
      ensures objects == if reply == Done then old(objects) - {k} else old(objects)
    {
      reply := if fails(calls) then Failed else if k in objects then Done else NotFound;
      if reply == Done { objects := objects - {k}; }
      calls := calls + 1;
      trace := trace + [objects];
    }

    // A merge patch of an existing Deployment's replica count.
    method PatchReplicas(k: Key, replicas: nat) returns (reply: Reply)
      requires k in objects ==> objects[k].Deployed?
      modifies this`calls, this`objects, this`trace
      ensures trace == old(trace) + [objects]
      ensures calls == old(calls) + 1
      ensures reply == if fails(old(calls)) then Failed else if k in old(objects) then Done else NotFound
      ensures objects == if reply == Done
                         then old(objects)[k := old(objects)[k].(manifest := old(objects)[k].manifest.(replicas := replicas))]
                         else old(objects)
    {
      reply := if fails(calls) then Failed else if k in objects then Done else NotFound;
      if reply == Done {
        objects := objects[k := objects[k].(manifest := objects[k].manifest.(replicas := replicas))];
      }
      calls := calls + 1;
      trace := trace + [objects];
    }

    // A merge patch of an existing Deployment's restart annotation.
    method PatchRestartedAt(k: Key, now: int) returns (reply: Reply)
      requires k in objects ==> objects[k].Deployed?
      modifies this`calls, this`objects, this`trace
      ensures trace == old(trace) + [objects]
      ensures calls == old(calls) + 1
      ensures reply == if fails(old(calls)) then Failed else if k in old(objects) then Done else NotFound
      ensures objects == if reply == Done then old(objects)[k := old(objects)[k].(restartedAt := Some(now))] else old(objects)
    {
      reply := if fails(calls) then Failed else if k in objects then Done else NotFound;
      if reply == Done { objects := objects[k := objects[k].(restartedAt := Some(now))]; }
      calls := calls + 1;
      trace := trace + [objects];
    }
  }
}
