/** The Kubernetes service: deploying the resources of one deployment, exposing and deleting them. */
module Kubernetes {
  import opened Common
  import opened Cluster
  import Names = DnsNames

  datatype Input = Input(
    namespace: string,
    base: string,
    replicas: nat,
    secrets: map<string, string>,
    files: seq<string>,
    secretFiles: seq<string>,
    exposed: bool)
  {
    function N(): Names.ResourceNames { Names.NamesFromBase(base) }

    function K(kind: Kind, name: string): Key { Key(namespace, kind, name) }
  }

  /** The resources the input asks for. */
  predicate Wanted(input: Input, k: Key) {
    && OwnedBy(input.namespace, input.base, k)
    && (k == input.K(ConfigMap, input.N().fileConfigMap) ==> input.files != [])
    && (k == input.K(Secret, input.N().secret) ==> input.secrets != map[])
    && (k == input.K(Secret, input.N().secretFiles) ==> input.secretFiles != [])
    && (k.kind == HttpRoute ==> input.exposed)
  }

  /** The ConfigMaps and Secrets the input's Deployment should refer to: exactly the wanted ones. */
  predicate WantedReference(input: Input, r: (Kind, string)) {
    r.0 in {ConfigMap, Secret} && Wanted(input, input.K(r.0, r.1))
  }

  ghost predicate AsWanted(input: Input, k: Key, o: Obj) {
    match k.kind
    case Workload =>
      && o.Deployed? && o.manifest.replicas == input.replicas
      && (forall r :: r in References(o.manifest) <==> WantedReference(input, r))
    case HttpRoute =>
      o == Route(if k.name == input.N().httpRoute then Some(input.N().service) else None)
    case _ => o == Plain
  }

  /** None of the deployment's resource names is in use. */
  ghost predicate Fresh(namespace: string, base: string, objects: Objects) {
    forall k :: k in objects ==> !OwnedBy(namespace, base, k)
  }

  /** The store holds some of the wanted resources, as wanted, and is otherwise as it was. */
  ghost predicate Partial(input: Input, before: Objects, now: Objects) {
    && SameElsewhere(input.namespace, input.base, before, now)
    && (forall k :: k in now && OwnedBy(input.namespace, input.base, k) ==> Wanted(input, k) && AsWanted(input, k, now[k]))
  }

  ghost predicate Complete(input: Input, now: Objects) {
    forall k :: Wanted(input, k) ==> k in now
  }

  lemma StartsPartial(managed: iset<(string, string)>, input: Input, before: Objects, now: Objects)
    requires Fresh(input.namespace, input.base, before) && Good(managed, before)
    requires TenancyOnly(before, now)
    ensures Partial(input, before, now) && Good(managed, now)
  {
    TenancyKeeps(managed, before, now);
    assert forall k :: k in now && OwnedBy(input.namespace, input.base, k) ==> k in before;
  }

  /** One more wanted resource, after what it refers to. */
  lemma AddLinked(input: Input, now: Objects, k: Key, o: Obj)
    requires Linked(input.namespace, input.base, now) && Wanted(input, k) && AsWanted(input, k, o)
    requires k.kind == Workload ==> Configured(input, now)
    requires k.kind == HttpRoute ==> input.K(Service, input.N().service) in now
    ensures Linked(input.namespace, input.base, now[k := o])
  {
  }

  lemma AddPartial(input: Input, before: Objects, now: Objects, k: Key, o: Obj)
    requires Partial(input, before, now) && Wanted(input, k) && AsWanted(input, k, o)
    ensures Partial(input, before, now[k := o]) && SameElsewhere(input.namespace, input.base, now, now[k := o])
  {
    hide AsWanted, OwnedBy;
  }

  lemma AddStep(managed: iset<(string, string)>, input: Input, before: Objects, now: Objects, k: Key, o: Obj)
    requires Partial(input, before, now) && Good(managed, now) && (input.namespace, input.base) in managed
    requires Wanted(input, k) && AsWanted(input, k, o)
    requires k.kind == Workload ==> Configured(input, now)
    requires k.kind == HttpRoute ==> input.K(Service, input.N().service) in now
    ensures Partial(input, before, now[k := o]) && Good(managed, now[k := o])
  {
    AddPartial(input, before, now, k, o);
    AddLinked(input, now, k, o);
    GoodFrame(managed, input.namespace, input.base, now, now[k := o]);
  }

  /** Which of the eight resources are wanted. */
  lemma WantedKeys(input: Input)
    ensures var n := input.N();
            && Wanted(input, input.K(ConfigMap, n.configMap))
            && (Wanted(input, input.K(ConfigMap, n.fileConfigMap)) <==> input.files != [])
            && (Wanted(input, input.K(Secret, n.secret)) <==> input.secrets != map[])
            && (Wanted(input, input.K(Secret, n.secretFiles)) <==> input.secretFiles != [])
            && Wanted(input, input.K(Workload, n.deployment))
            && Wanted(input, input.K(Service, n.service))
            && (Wanted(input, input.K(HttpRoute, n.httpRoute)) <==> input.exposed)
            && (Wanted(input, input.K(HttpRoute, n.httpRedirectRoute)) <==> input.exposed)
            && n.httpRoute != n.httpRedirectRoute
  {
    OtherSuffix(input.base, "-env", input.base, "-files");
    OtherSuffix(input.base, "-secret", input.base, "-secret-files");
    OtherSuffix(input.base, "-route", input.base, "-redirect");
  }

  /** The store holds every ConfigMap and Secret that the Deployment will refer to. */
  ghost predicate Configured(input: Input, now: Objects) {
    forall r :: WantedReference(input, r) ==> input.K(r.0, r.1) in now
  }

  lemma ConfiguredBy(input: Input, now: Objects)
    requires input.K(ConfigMap, input.N().configMap) in now
    requires input.files != [] ==> input.K(ConfigMap, input.N().fileConfigMap) in now
    requires input.secrets != map[] ==> input.K(Secret, input.N().secret) in now
    requires input.secretFiles != [] ==> input.K(Secret, input.N().secretFiles) in now
    ensures Configured(input, now)
  {
  }

  lemma CompleteBy(input: Input, now: Objects)
    requires Configured(input, now)
    requires input.K(Workload, input.N().deployment) in now && input.K(Service, input.N().service) in now
    requires input.exposed ==> input.K(HttpRoute, input.N().httpRoute) in now
    requires input.exposed ==> input.K(HttpRoute, input.N().httpRedirectRoute) in now
    ensures Complete(input, now)
  {
    forall k | Wanted(input, k) ensures k in now {
      if k.kind in {ConfigMap, Secret} { assert WantedReference(input, (k.kind, k.name)); }
    }
  }

  /** The object with this name in the deployment's namespace. */
  predicate Has(input: Input, kind: Kind, name: string, objects: Objects) {
    Key(input.namespace, kind, name) in objects
  }

  /** What a complete deployment is, name by name. */
  lemma CompleteMeans(input: Input, before: Objects, now: Objects)
    requires Partial(input, before, now) && Complete(input, now) && Fresh(input.namespace, input.base, before)
    ensures var base, w := input.base, Key(input.namespace, Workload, input.base);
            && Has(input, ConfigMap, base + "-env", now) && Has(input, Service, base + "-svc", now)
            && (Has(input, ConfigMap, base + "-files", now) <==> input.files != [])
            && (Has(input, Secret, base + "-secret", now) <==> input.secrets != map[])
            && (Has(input, Secret, base + "-secret-files", now) <==> input.secretFiles != [])
            && w in now && now[w].Deployed? && now[w].manifest.replicas == input.replicas
            && (forall r :: r in References(now[w].manifest) <==>
                  r.0 in {ConfigMap, Secret} && Has(input, r.0, r.1, now) && OwnedBy(input.namespace, base, Key(input.namespace, r.0, r.1)))
    ensures var route := Key(input.namespace, HttpRoute, input.base + "-route");
            if input.exposed then route in now && now[route] == Route(Some(input.base + "-svc")) else route !in now
    ensures var redirect := Key(input.namespace, HttpRoute, input.base + "-redirect");
            if input.exposed then redirect in now && now[redirect] == Route(None) else redirect !in now
  {
    WantedKeys(input);
    forall k | OwnedBy(input.namespace, input.base, k) ensures k in now <==> Wanted(input, k) {
    }
    hide References;
  }

  lemma DropRoute(managed: iset<(string, string)>, input: Input, before: Objects, now: Objects, k: Key)
    requires Partial(input, before, now) && Good(managed, now) && (input.namespace, input.base) in managed
    requires k.kind == HttpRoute && OwnedBy(input.namespace, input.base, k)
    ensures Partial(input, before, now - {k}) && Good(managed, now - {k})
  {
    DropSafe(managed, now, input.namespace, input.base, k);
    hide Good, AsWanted, Wanted;
    assert forall x :: x in now - {k} ==> x in now && (now - {k})[x] == now[x];
  }

  ghost predicate NoRoutes(namespace: string, base: string, objects: Objects) {
    forall k: Key :: k.kind == HttpRoute && OwnedBy(namespace, base, k) ==> k !in objects
  }

  /** Nothing is lost and no route is added. */
  ghost predicate Grows(input: Input, before: Objects, now: Objects) {
    && before.Keys <= now.Keys
    && (NoRoutes(input.namespace, input.base, before) ==> NoRoutes(input.namespace, input.base, now))
  }

  lemma NoRoutesIff(input: Input, objects: Objects)
    ensures NoRoutes(input.namespace, input.base, objects) <==>
            input.K(HttpRoute, input.N().httpRoute) !in objects && input.K(HttpRoute, input.N().httpRedirectRoute) !in objects
  {
  }

  /** Some of the deployment's own resources are gone and nothing else has changed. */
  ghost predicate Shrunk(namespace: string, base: string, before: Objects, now: Objects) {
    && (forall k :: k in now ==> k in before && now[k] == before[k])
    && (forall k :: k in before && k !in now ==> OwnedBy(namespace, base, k))
  }

  /** An object may go once the deployment's own referrers are gone: nobody else refers to it. */
  lemma DropSafe(managed: iset<(string, string)>, objects: Objects, namespace: string, base: string, k: Key)
    requires Good(managed, objects) && (namespace, base) in managed && OwnedBy(namespace, base, k)
    requires k.kind == Service ==> Key(namespace, HttpRoute, base + "-route") !in objects
    requires k.kind == Service ==> Key(namespace, HttpRoute, base + "-redirect") !in objects
    requires k.kind in {ConfigMap, Secret} ==> Key(namespace, Workload, base) !in objects
    ensures Good(managed, objects - {k})
  {
    var now := objects - {k};
    assert forall x :: x in now ==> x in objects && now[x] == objects[x];
    assert forall x :: x in objects && x != k ==> x in now;
    assert Linked(namespace, base, objects);
    assert Linked(namespace, base, now);
    GoodFrame(managed, namespace, base, objects, now);
  }

  lemma AllGone(namespace: string, base: string, objects: Objects)
    requires NoRoutes(namespace, base, objects)
    requires Key(namespace, Workload, base) !in objects && Key(namespace, Service, base + "-svc") !in objects
    requires Key(namespace, ConfigMap, base + "-env") !in objects && Key(namespace, ConfigMap, base + "-files") !in objects
    requires Key(namespace, Secret, base + "-secret") !in objects && Key(namespace, Secret, base + "-secret-files") !in objects
    ensures Fresh(namespace, base, objects)
  {
  }

  function Scaled(objects: Objects, k: Key, replicas: nat): Objects {
    if k in objects && objects[k].Deployed?
    then objects[k := objects[k].(manifest := objects[k].manifest.(replicas := replicas))]
    else objects
  }

  function Restarted(objects: Objects, k: Key, now: int): Objects {
    if k in objects && objects[k].Deployed? then objects[k := objects[k].(restartedAt := Some(now))] else objects
  }

  lemma PatchKeeps(managed: iset<(string, string)>, objects: Objects, namespace: string, base: string, replicas: nat)
    requires Good(managed, objects) && (namespace, base) in managed
    ensures Good(managed, Scaled(objects, Key(namespace, Workload, base), replicas))
  {
    var k := Key(namespace, Workload, base);
    assert Linked(namespace, base, objects) && OwnedBy(namespace, base, k);
    GoodFrame(managed, namespace, base, objects, Scaled(objects, k, replicas));
  }

  lemma RestartKeeps(managed: iset<(string, string)>, objects: Objects, namespace: string, base: string, now: int)
    requires Good(managed, objects) && (namespace, base) in managed
    ensures Good(managed, Restarted(objects, Key(namespace, Workload, base), now))
  {
    var k := Key(namespace, Workload, base);
    assert Linked(namespace, base, objects) && OwnedBy(namespace, base, k);
    GoodFrame(managed, namespace, base, objects, Restarted(objects, k, now));
  }

  const POLICY_NAMES := ["default-deny-ingress", "allow-same-namespace", "allow-shared-gateway"]

  datatype Routing = Routed | Unlabelled | RolledBack | RollbackFailed

  class KubernetesService {
    const api: Api
    const policiesEnabled: bool      // tenantNetworkPolicyEnabled
    const gatewayConfigured: bool    // the application gateway has a name and a namespace

    constructor (api: Api, policiesEnabled: bool, gatewayConfigured: bool)
      ensures this.api == api && this.policiesEnabled == policiesEnabled && this.gatewayConfigured == gatewayConfigured
    {
      this.api, this.policiesEnabled, this.gatewayConfigured := api, policiesEnabled, gatewayConfigured;
    }

    /** The tenant policies, when enabled, need a gateway. */
    predicate Configurable() {
      policiesEnabled ==> gatewayConfigured
    }

    static lemma ManifestReferences(input: Input, m: Manifest)
      requires forall e :: e in m.envFrom <==>
                 e == ConfigMapRef(input.base + "-env") || (input.secrets != map[] && e == SecretRef(input.base + "-secret"))
      requires forall v :: v in m.volumes <==>
                 || (input.files != [] && v == ConfigMapVolume("config-files", input.base + "-files"))
                 || (input.secretFiles != [] && v == SecretVolume("secret-files", input.base + "-secret-files"))
      ensures forall r :: r in References(m) <==> WantedReference(input, r)
    {
      WantedKeys(input);
      var n := input.N();
      assert ConfigMapRef(n.configMap) in m.envFrom && (input.secrets != map[] ==> SecretRef(n.secret) in m.envFrom);
      assert input.files != [] ==> ConfigMapVolume("config-files", n.fileConfigMap) in m.volumes;
      assert input.secretFiles != [] ==> SecretVolume("secret-files", n.secretFiles) in m.volumes;
    }

    // Fills the manifest's lists by conditional pushes.
    static method BuildDeploymentManifest(input: Input) returns (m: Manifest)
      ensures m.replicas == input.replicas
      ensures forall r :: r in References(m) <==> WantedReference(input, r)
      ensures forall e :: e in m.envFrom <==>
                e == ConfigMapRef(input.base + "-env") || (input.secrets != map[] && e == SecretRef(input.base + "-secret"))
      ensures forall v :: v in m.volumes <==>
                || (input.files != [] && v == ConfigMapVolume("config-files", input.base + "-files"))
                || (input.secretFiles != [] && v == SecretVolume("secret-files", input.base + "-secret-files"))
      ensures forall i :: 0 <= i < |m.mounts| ==>
                m.mounts[i].path == if m.mounts[i].volume == "config-files" then "/app/config" else "/app/secrets"
      ensures |m.mounts| == |m.volumes| && forall i :: 0 <= i < |m.mounts| ==> m.mounts[i].volume == m.volumes[i].name
      ensures forall i, j :: 0 <= i < j < |m.volumes| ==> m.volumes[i].name != m.volumes[j].name
    {
      var n := input.N();
      var envFrom := [ConfigMapRef(n.configMap)];
      var volumes: seq<Volume> := [];
      var mounts: seq<Mount> := [];
      if |input.secrets| > 0 { envFrom := envFrom + [SecretRef(n.secret)]; }
      if input.files != [] {
        volumes := volumes + [ConfigMapVolume("config-files", n.fileConfigMap)];
        mounts := mounts + [Mount("config-files", "/app/config")];
      }
      if input.secretFiles != [] {
        volumes := volumes + [SecretVolume("secret-files", n.secretFiles)];
        mounts := mounts + [Mount("secret-files", "/app/secrets")];
      }
      m := Manifest(input.replicas, envFrom, volumes, mounts);
      ManifestReferences(input, m);
    }

    // Reads the object, then replaces or creates it.
    method Upsert(k: Key, o: Obj) returns (ok: bool)
      modifies api
      ensures old(api.trace) <= api.trace
      ensures api.objects == if ok then old(api.objects)[k := o] else old(api.objects)
      ensures old(api.calls) <= api.calls && (ok <==> api.NoneFailed(old(api.calls)))
      ensures api.OnlyStates(old(api.objects), api.objects)
    {
      var reply := api.Read(k);
      if reply == Done {
        reply := api.Replace(k, o);
      }
      if reply == NotFound {
        reply := api.Create(k, o);
      }
      ok := reply == Done;
    }

    // Ignores a missing object.
    method DeleteIfExists(k: Key) returns (ok: bool)
      modifies api
      ensures old(api.trace) <= api.trace
      ensures api.objects == if ok then old(api.objects) - {k} else old(api.objects)
      ensures old(api.calls) <= api.calls && (ok <==> api.NoneFailed(old(api.calls)))
      ensures api.OnlyStates(old(api.objects), api.objects)
    {
      var reply := api.Delete(k);
      ok := reply == Done || reply == NotFound;
    }

    // One upsert per tenant policy, up to the first failure.
    method ReconcilePolicies(namespace: string) returns (ok: bool)
      requires api.AlwaysGood()
      modifies api
      ensures old(api.trace) <= api.trace
      ensures api.AlwaysGood() && TenancyOnly(old(api.objects), api.objects)
      ensures old(api.calls) <= api.calls && (ok <==> gatewayConfigured && api.NoneFailed(old(api.calls)))
      ensures ok ==> forall i :: 0 <= i < |POLICY_NAMES| ==> Key(namespace, NetworkPolicy, POLICY_NAMES[i]) in api.objects
    {
      if !gatewayConfigured { return false; }
      var k := 0;
      while k < |POLICY_NAMES|
        invariant 0 <= k <= |POLICY_NAMES|
        invariant old(api.trace) <= api.trace && old(api.calls) <= api.calls && api.NoneFailed(old(api.calls))
        invariant api.AlwaysGood() && TenancyOnly(old(api.objects), api.objects)
        invariant forall i :: 0 <= i < k ==> Key(namespace, NetworkPolicy, POLICY_NAMES[i]) in api.objects
      {
        TenancyKeeps(api.managed, api.objects, api.objects[Key(namespace, NetworkPolicy, POLICY_NAMES[k]) := Plain]);
        ok := Upsert(Key(namespace, NetworkPolicy, POLICY_NAMES[k]), Plain);
        if !ok { return; }
        k := k + 1;
      }
      ok := true;
    }

    // Creates the namespace only when it does not exist, then reconciles its policies.
    method EnsureNamespace(namespace: string) returns (ok: bool)
      requires api.AlwaysGood()
      modifies api
      ensures old(api.trace) <= api.trace
      ensures api.AlwaysGood() && TenancyOnly(old(api.objects), api.objects)
      ensures old(api.calls) <= api.calls && (ok <==> Configurable() && api.NoneFailed(old(api.calls)))
      ensures ok ==> Key("", Namespace, namespace) in api.objects
      ensures ok && policiesEnabled ==>
                forall i :: 0 <= i < |POLICY_NAMES| ==> Key(namespace, NetworkPolicy, POLICY_NAMES[i]) in api.objects
    {
      ok := EnsureNamespaceExists(namespace);
      if ok && policiesEnabled { ok := ReconcilePolicies(namespace); }
    }

    method EnsureNamespaceExists(namespace: string) returns (ok: bool)
      requires api.AlwaysGood()
      modifies api
      ensures old(api.trace) <= api.trace
      ensures api.AlwaysGood() && TenancyOnly(old(api.objects), api.objects)
      ensures old(api.calls) <= api.calls && (ok <==> api.NoneFailed(old(api.calls)))
      ensures ok ==> Key("", Namespace, namespace) in api.objects
    {
      var k := Key("", Namespace, namespace);
      TenancyKeeps(api.managed, api.objects, api.objects[k := Plain]);
      var reply := api.Read(k);
      if reply == NotFound {
        reply := api.Create(k, Plain);
      }
      ok := reply == Done;
    }

    /** A deployment in progress: part of it is stored, and the store has always been good. */
    ghost predicate Deploying(input: Input, before: Objects)
      reads api
    {
      Partial(input, before, api.objects) && api.AlwaysGood() && (input.namespace, input.base) in api.managed
    }

    // An upsert of one wanted resource.
    method Put(input: Input, ghost before: Objects, k: Key, o: Obj) returns (ok: bool)
      requires Deploying(input, before) && Wanted(input, k) && AsWanted(input, k, o)
      requires k.kind == Workload ==> Configured(input, api.objects)
      requires k.kind != HttpRoute
      modifies api
      ensures old(api.trace) <= api.trace
      ensures Deploying(input, before)
      ensures old(api.calls) <= api.calls && (ok <==> api.NoneFailed(old(api.calls)))
      ensures Grows(input, old(api.objects), api.objects) && (ok ==> k in api.objects)
    {
      AddStep(api.managed, input, before, api.objects, k, o);
      ok := Upsert(k, o);
    }

    // A resource that the input may leave out: upserted when wanted, otherwise deleted.
    method UpsertOptional(input: Input, ghost before: Objects, k: Key, wanted: bool) returns (ok: bool)
      requires Deploying(input, before)
      requires k.kind in {ConfigMap, Secret} && OwnedBy(input.namespace, input.base, k) && (wanted <==> Wanted(input, k))
      modifies api
      ensures old(api.trace) <= api.trace
      ensures Deploying(input, before)
      ensures old(api.calls) <= api.calls && (ok <==> api.NoneFailed(old(api.calls)))
      ensures Grows(input, old(api.objects), api.objects) && (ok && wanted ==> k in api.objects)
    {
      if wanted {
        ok := Put(input, before, k, Plain);
      } else {
        ghost var was := api.objects;
        assert was - {k} == was;
        ok := DeleteIfExists(k);
      }
    }

    // One route creation; a route that exists is a conflict.
    method CreateRoute(input: Input, ghost before: Objects, k: Key, backend: Option<string>) returns (ok: bool)
      requires Deploying(input, before) && input.exposed && input.K(Service, input.N().service) in api.objects
      requires k.kind == HttpRoute && Wanted(input, k) && AsWanted(input, k, Route(backend))
      modifies api
      ensures old(api.trace) <= api.trace
      ensures Deploying(input, before)
      ensures api.calls == old(api.calls) + 1 && (ok <==> k !in old(api.objects) && !api.fails(old(api.calls)))
      ensures api.objects.Keys == if ok then old(api.objects).Keys + {k} else old(api.objects).Keys
    {
      AddStep(api.managed, input, before, api.objects, k, Route(backend));
      var reply := api.Create(k, Route(backend));
      ok := reply == Done;
    }

    // One route deletion.
    method DeleteRoute(input: Input, ghost before: Objects, k: Key) returns (ok: bool)
      requires Deploying(input, before)
      requires k.kind == HttpRoute && OwnedBy(input.namespace, input.base, k)
      modifies api
      ensures old(api.trace) <= api.trace
      ensures Deploying(input, before)
      ensures api.calls == old(api.calls) + 1 && (ok <==> !api.fails(old(api.calls)))
      ensures api.objects.Keys == if ok then old(api.objects).Keys - {k} else old(api.objects).Keys
    {
      DropRoute(api.managed, input, before, api.objects, k);
      var reply := api.Delete(k);
      ok := reply == Done || reply == NotFound;
    }

    // The creations: the route first, then the redirect.
    method CreateRoutes(input: Input, ghost before: Objects) returns (ok: bool)
      requires Deploying(input, before)
      requires input.exposed && input.K(Service, input.N().service) in api.objects
      modifies api
      ensures old(api.trace) <= api.trace
      ensures Deploying(input, before) && old(api.calls) < api.calls
      ensures var route, redirect := input.K(HttpRoute, input.N().httpRoute), input.K(HttpRoute, input.N().httpRedirectRoute);
              && old(api.objects).Keys <= api.objects.Keys <= old(api.objects).Keys + {route, redirect}
              && (ok ==> route in api.objects && redirect in api.objects)
              && (ok <==> route !in old(api.objects) && redirect !in old(api.objects) && api.NoneFailed(old(api.calls)))
    {
      var n := input.N();
      WantedKeys(input);
      hide Deploying;
      ok := CreateRoute(input, before, input.K(HttpRoute, n.httpRoute), Some(n.service));
      if !ok { return; }
      ok := CreateRoute(input, before, input.K(HttpRoute, n.httpRedirectRoute), None);
    }

    // The handler of a failed creation: both routes go, the redirect first.
    method RollBackRouting(input: Input, ghost before: Objects) returns (ok: bool)
      requires Deploying(input, before)
      modifies api
      ensures old(api.trace) <= api.trace
      ensures Deploying(input, before)
      ensures old(api.calls) < api.calls && (ok <==> api.NoneFailed(old(api.calls))) && (ok <==> !api.fails(api.calls - 1))
      ensures var route, redirect := input.K(HttpRoute, input.N().httpRoute), input.K(HttpRoute, input.N().httpRedirectRoute);
              api.objects.Keys == if ok then old(api.objects).Keys - {route, redirect}
                                  else if api.calls == old(api.calls) + 1 then old(api.objects).Keys
                                  else old(api.objects).Keys - {redirect}
    {
      var n := input.N();
      ok := DeleteRoute(input, before, input.K(HttpRoute, n.httpRedirectRoute));
      if !ok { return; }
      ok := DeleteRoute(input, before, input.K(HttpRoute, n.httpRoute));
    }

    // Patching the namespace's labels changes nothing the model keeps, so it is a read here.
    method LabelNamespace(input: Input, ghost before: Objects) returns (ok: bool)
      requires Deploying(input, before)
      modifies api
      ensures old(api.trace) <= api.trace
      ensures Deploying(input, before) && api.objects == old(api.objects) && api.calls == old(api.calls) + 1
      ensures ok <==> Key("", Namespace, input.namespace) in api.objects && !api.fails(old(api.calls))
    {
      var reply := api.Read(Key("", Namespace, input.namespace));
      ok := reply == Done;
    }

    // Labels the namespace, then creates both routes; a failed creation deletes both again.
    method EnableApplicationRouting(input: Input, ghost before: Objects) returns (r: Routing)
      requires Deploying(input, before)
      requires input.exposed && input.K(Service, input.N().service) in api.objects
      modifies api
      ensures old(api.trace) <= api.trace
      ensures Deploying(input, before) && old(api.calls) < api.calls
      ensures forall k: Key :: k.kind != HttpRoute ==> (k in old(api.objects) <==> k in api.objects)
      ensures r == Unlabelled <==> api.fails(old(api.calls)) || Key("", Namespace, input.namespace) !in old(api.objects)
      ensures r == Unlabelled ==> api.objects == old(api.objects)
      ensures r == Routed ==>
                input.K(HttpRoute, input.N().httpRoute) in api.objects &&
                input.K(HttpRoute, input.N().httpRedirectRoute) in api.objects
      ensures NoRoutes(input.namespace, input.base, old(api.objects)) && Key("", Namespace, input.namespace) in old(api.objects) ==>
                (r == Routed <==> api.NoneFailed(old(api.calls)))
      ensures r == RolledBack ==> NoRoutes(input.namespace, input.base, api.objects) && !api.fails(api.calls - 1)
      ensures r == RollbackFailed ==> api.fails(api.calls - 1)
    {
      hide Deploying, NoRoutes;
      NoRoutesIff(input, api.objects);
      var ok := LabelNamespace(input, before);
      if !ok { return Unlabelled; }
      ok := CreateRoutes(input, before);
      if ok { return Routed; }
      ok := RollBackRouting(input, before);
      NoRoutesIff(input, api.objects);
      return if ok then RolledBack else RollbackFailed;
    }

    // The environment ConfigMap, the file ConfigMap, the Secret and the secret files, in that order.
    method UpsertConfiguration(input: Input, ghost before: Objects) returns (ok: bool)
      requires Deploying(input, before)
      modifies api
      ensures old(api.trace) <= api.trace
      ensures Deploying(input, before)
      ensures old(api.calls) <= api.calls && (ok <==> api.NoneFailed(old(api.calls)))
      ensures ok ==> Configured(input, api.objects)
      ensures Grows(input, old(api.objects), api.objects)
    {
      var n := input.N();
      WantedKeys(input);
      hide Deploying, NoRoutes;
      ok := Put(input, before, input.K(ConfigMap, n.configMap), Plain);
      if !ok { return; }
      ok := UpsertOptional(input, before, input.K(ConfigMap, n.fileConfigMap), input.files != []);
      if !ok { return; }
      ok := UpsertOptional(input, before, input.K(Secret, n.secret), |input.secrets| > 0);
      if !ok { return; }
      ok := UpsertOptional(input, before, input.K(Secret, n.secretFiles), input.secretFiles != []);
      if ok { ConfiguredBy(input, api.objects); }
    }

    method UpsertDeployment(input: Input, ghost before: Objects) returns (ok: bool)
      requires Deploying(input, before) && Configured(input, api.objects)
      modifies api
      ensures old(api.trace) <= api.trace
      ensures Deploying(input, before)
      ensures old(api.calls) <= api.calls && (ok <==> api.NoneFailed(old(api.calls)))
      ensures Grows(input, old(api.objects), api.objects)
      ensures ok ==> input.K(Workload, input.N().deployment) in api.objects
    {
      WantedKeys(input);
      var manifest := BuildDeploymentManifest(input);
      ok := Put(input, before, input.K(Workload, input.N().deployment), Deployed(manifest, None));
    }

    // The Deployment, its Service and, when exposed, its routes.
    method UpsertWorkload(input: Input, ghost before: Objects) returns (ok: bool)
      requires Deploying(input, before) && Configured(input, api.objects)
      requires NoRoutes(input.namespace, input.base, api.objects) && Key("", Namespace, input.namespace) in api.objects
      modifies api
      ensures old(api.trace) <= api.trace
      ensures Deploying(input, before)
      ensures old(api.calls) <= api.calls && (ok <==> api.NoneFailed(old(api.calls)))
      ensures ok ==> Complete(input, api.objects)
      ensures forall k: Key :: k.kind != HttpRoute && k in old(api.objects) ==> k in api.objects
    {
      WantedKeys(input);
      hide Deploying, NoRoutes, Complete;
      ok := UpsertDeployment(input, before);
      if !ok { return; }
      ok := Put(input, before, input.K(Service, input.N().service), Plain);
      if !ok { return; }
      if input.exposed {
        var r := EnableApplicationRouting(input, before);
        ok := r == Routed;
      }
      if ok { CompleteBy(input, api.objects); }
    }

    // Creates or updates every resource of a deployment whose names are free.
    method DeployImage(input: Input) returns (ok: bool)
      requires api.AlwaysGood() && Fresh(input.namespace, input.base, api.objects)
      requires (input.namespace, input.base) in api.managed
      modifies api
      ensures old(api.trace) <= api.trace
      ensures api.AlwaysGood()
      ensures old(api.calls) <= api.calls && (ok <==> Configurable() && api.NoneFailed(old(api.calls)))
      ensures Partial(input, old(api.objects), api.objects)
      ensures ok ==> Complete(input, api.objects) && Key("", Namespace, input.namespace) in api.objects
      ensures ok && policiesEnabled ==>
                forall i :: 0 <= i < |POLICY_NAMES| ==> Key(input.namespace, NetworkPolicy, POLICY_NAMES[i]) in api.objects
    {
      ghost var before := api.objects;
      ok := EnsureNamespace(input.namespace);
      StartsPartial(api.managed, input, before, api.objects);
      if !ok { return; }
      ok := UpsertConfiguration(input, before);
      if !ok { return; }
      ok := UpsertWorkload(input, before);
    }

    // One deletion of a deployment's own resource.
    method DeleteOwn(namespace: string, base: string, ghost before: Objects, k: Key) returns (ok: bool)
      requires api.AlwaysGood() && (namespace, base) in api.managed
      requires Shrunk(namespace, base, before, api.objects) && OwnedBy(namespace, base, k)
      requires k.kind == Service ==> NoRoutes(namespace, base, api.objects)
      requires k.kind in {ConfigMap, Secret} ==> Key(namespace, Workload, base) !in api.objects
      modifies api
      ensures old(api.trace) <= api.trace
      ensures api.AlwaysGood() && Shrunk(namespace, base, before, api.objects)
      ensures old(api.calls) <= api.calls && (ok <==> api.NoneFailed(old(api.calls)))
      ensures api.objects.Keys == if ok then old(api.objects).Keys - {k} else old(api.objects).Keys
    {
      DropSafe(api.managed, api.objects, namespace, base, k);
      ok := DeleteIfExists(k);
    }

    // Deletes the routes (when told to), then the Deployment, the Service, the ConfigMaps and the Secrets.
    method DeleteDeploymentResources(namespace: string, base: string, deleteRoutes: bool) returns (ok: bool)
      requires api.AlwaysGood() && (namespace, base) in api.managed
      requires !deleteRoutes ==> NoRoutes(namespace, base, api.objects)
      modifies api
      ensures old(api.trace) <= api.trace
      ensures old(api.calls) <= api.calls && (ok <==> api.NoneFailed(old(api.calls)))
      ensures api.AlwaysGood() && Shrunk(namespace, base, old(api.objects), api.objects)
      ensures ok ==> Fresh(namespace, base, api.objects)
    {
      ghost var before := api.objects;
      var n := Names.NamesFromBase(base);
      if deleteRoutes {
        ok := DeleteOwn(namespace, base, before, Key(namespace, HttpRoute, n.httpRedirectRoute));
        if !ok { return; }
        ok := DeleteOwn(namespace, base, before, Key(namespace, HttpRoute, n.httpRoute));
        if !ok { return; }
      }
      ok := DeleteOwn(namespace, base, before, Key(namespace, Workload, n.deployment));
      if !ok { return; }
      ok := DeleteOwn(namespace, base, before, Key(namespace, Service, n.service));
      if !ok { return; }
      ok := DeleteConfiguration(namespace, base, before);
    }

    // The last part: ConfigMaps and Secrets.
    method DeleteConfiguration(namespace: string, base: string, ghost before: Objects) returns (ok: bool)
      requires api.AlwaysGood() && (namespace, base) in api.managed
      requires Shrunk(namespace, base, before, api.objects) && NoRoutes(namespace, base, api.objects)
      requires Key(namespace, Workload, base) !in api.objects && Key(namespace, Service, base + "-svc") !in api.objects
      modifies api
      ensures old(api.trace) <= api.trace
      ensures old(api.calls) <= api.calls && (ok <==> api.NoneFailed(old(api.calls)))
      ensures api.AlwaysGood() && Shrunk(namespace, base, before, api.objects)
      ensures ok ==> Fresh(namespace, base, api.objects)
    {
      var n := Names.NamesFromBase(base);
      ok := DeleteOwn(namespace, base, before, Key(namespace, ConfigMap, n.configMap));
      if !ok { return; }
      ok := DeleteOwn(namespace, base, before, Key(namespace, ConfigMap, n.fileConfigMap));
      if !ok { return; }
      ok := DeleteOwn(namespace, base, before, Key(namespace, Secret, n.secret));
      if !ok { return; }
      ok := DeleteOwn(namespace, base, before, Key(namespace, Secret, n.secretFiles));
      if ok { AllGone(namespace, base, api.objects); }
    }

    // The live replica count of a Deployment, None when the call fails or finds nothing.
    method GetDeploymentReplicas(namespace: string, base: string) returns (live: Option<nat>)
      requires api.AlwaysGood() && (namespace, base) in api.managed
      modifies api
      ensures old(api.trace) <= api.trace
      ensures api.AlwaysGood() && api.objects == old(api.objects)
      ensures api.calls == old(api.calls) + 1
      ensures live.Some? <==> Key(namespace, Workload, base) in api.objects && !api.fails(old(api.calls))
      ensures live.Some? ==> live.value == api.objects[Key(namespace, Workload, base)].manifest.replicas
    {
      var k := Key(namespace, Workload, base);
      assert Linked(namespace, base, api.objects);
      var reply := api.Read(k);
      live := if reply == Done then Some(api.objects[k].manifest.replicas) else None;
    }

    method ScaleDeployment(namespace: string, base: string, replicas: nat) returns (ok: bool)
      requires api.AlwaysGood() && (namespace, base) in api.managed
      modifies api
      ensures old(api.trace) <= api.trace
      ensures api.AlwaysGood() && api.calls == old(api.calls) + 1
      ensures ok <==> Key(namespace, Workload, base) in old(api.objects) && !api.fails(old(api.calls))
      ensures api.objects == if ok then Scaled(old(api.objects), Key(namespace, Workload, base), replicas) else old(api.objects)
      ensures ok ==>
                var k := Key(namespace, Workload, base);
                && k in api.objects && api.objects[k].Deployed? && api.objects[k].manifest.replicas == replicas
                && api.objects[k].restartedAt == old(api.objects)[k].restartedAt
    {
      var k := Key(namespace, Workload, base);
      assert Linked(namespace, base, api.objects);
      PatchKeeps(api.managed, api.objects, namespace, base, replicas);
      var reply := api.PatchReplicas(k, replicas);
      ok := reply == Done;
    }

    method RestartDeployment(namespace: string, base: string, now: int) returns (ok: bool)
      requires api.AlwaysGood() && (namespace, base) in api.managed
      modifies api
      ensures old(api.trace) <= api.trace
      ensures api.AlwaysGood() && api.calls == old(api.calls) + 1
      ensures ok <==> Key(namespace, Workload, base) in old(api.objects) && !api.fails(old(api.calls))
      ensures api.objects == if ok then Restarted(old(api.objects), Key(namespace, Workload, base), now) else old(api.objects)
      ensures ok ==>
                var k := Key(namespace, Workload, base);
                && k in api.objects && api.objects[k].Deployed? && api.objects[k].restartedAt == Some(now)
                && api.objects[k].manifest == old(api.objects)[k].manifest
    {
      var k := Key(namespace, Workload, base);
      assert Linked(namespace, base, api.objects);
      RestartKeeps(api.managed, api.objects, namespace, base, now);
      var reply := api.PatchRestartedAt(k, now);
      ok := reply == Done;
    }
  }
}
