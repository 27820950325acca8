/** Rendering an accepted bundle into Kubernetes objects, and reconciling a cluster
    with them (apexfabric/solution_management/renderer.py). */
module Rendering {
  import opened Options
  import opened Bundle

  datatype Kind = Namespace | ConfigMap | Secret | PersistentVolumeClaim | Deployment | Service | NetworkPolicy
  datatype VolumeSource =
    | ConfigMapVolume(configMap: string) | SecretVolume(secret: string) | ClaimVolume(claim: string)
    | EmptyDir | HostPath(path: string)
  datatype Volume = Volume(name: string, source: VolumeSource)
  datatype Mount = Mount(volume: string, path: string, readOnly: bool)
  datatype SecretRef = SecretRef(variable: string, secret: string, key: string)

  datatype Pod = Pod(
    volumes: seq<Volume>, mounts: seq<Mount>, compilerMounts: Option<seq<Mount>>,
    ports: seq<Port>, probes: seq<string>, telemetry: seq<string>, scraped: Option<nat>, secretRefs: set<SecretRef>)

  datatype Body = Plain | Data(keys: set<string>) | Workload(pod: Pod)
  datatype Object = Object(kind: Kind, name: string, body: Body)

  predicate Prunable(kind: Kind) {
    kind in {Deployment, ConfigMap, Secret, Service, NetworkPolicy}
  }

  function ConfigName(name: string): string { name + "-config" }
  function SecretName(name: string): string { name + "-secret" }
  function ClaimName(name: string, volume: string): string { name + "-" + volume }
  function PersistentName(volume: string): string { "persistent-" + volume }
  function ExternalName(mount: string): string { "external-" + mount }

  // ---------------------------------------------------------------- volumes and mounts

  function PersistentVolumes(name: string, vs: seq<Claimed>): (r: seq<Volume>)
    ensures |r| == |vs| && forall i :: 0 <= i < |r| ==> r[i] == Volume(PersistentName(vs[i].name), ClaimVolume(ClaimName(name, vs[i].name)))
  {
    seq(|vs|, i requires 0 <= i < |vs| => Volume(PersistentName(vs[i].name), ClaimVolume(ClaimName(name, vs[i].name))))
  }

  function ExternalSource(s: Source): VolumeSource {
    if s.SecretSource? then SecretVolume(s.secret) else ClaimVolume(s.claim)
  }

  function ExternalVolumes(ms: seq<External>): (r: seq<Volume>)
    ensures |r| == |ms| && forall i :: 0 <= i < |r| ==> r[i] == Volume(ExternalName(ms[i].name), ExternalSource(ms[i].source))
  {
    seq(|ms|, i requires 0 <= i < |ms| => Volume(ExternalName(ms[i].name), ExternalSource(ms[i].source)))
  }

  function CompilerVolumes(app: App): seq<Volume> {
    if app.compiler.None? then []
    else [Volume("desired-state", match app.compiler.value
                                  case FromSecretNamed(s) => SecretVolume(s)
                                  case FromConfigMapNamed(c) => ConfigMapVolume(c)),
          Volume("compiled-plans", EmptyDir)]
  }

  function HostVolumes(app: App): seq<Volume> {
    match app.profile
    case Standard => []
    case Metis => [Volume("host-devices", HostPath("/dev"))]
    case GpuNpu => [Volume("host-dri", HostPath("/dev/dri")), Volume("host-accel", HostPath("/dev/accel"))]
  }

  function Volumes(name: string, app: App): seq<Volume> {
    [Volume("configuration", ConfigMapVolume(ConfigName(name)))]
    + (if app.secrets == {} then [] else [Volume("secrets", SecretVolume(SecretName(name)))])
    + PersistentVolumes(name, app.persistent) + ExternalVolumes(app.external)
    + CompilerVolumes(app) + HostVolumes(app)
  }

  function PersistentMounts(vs: seq<Claimed>): (r: seq<Mount>)
    ensures |r| == |vs| && forall i :: 0 <= i < |r| ==> r[i] == Mount(PersistentName(vs[i].name), vs[i].path, false)
  {
    seq(|vs|, i requires 0 <= i < |vs| => Mount(PersistentName(vs[i].name), vs[i].path, false))
  }

  function ExternalMounts(ms: seq<External>): (r: seq<Mount>)
    ensures |r| == |ms| && forall i :: 0 <= i < |r| ==> r[i] == Mount(ExternalName(ms[i].name), ms[i].path, ms[i].readOnly)
  {
    seq(|ms|, i requires 0 <= i < |ms| => Mount(ExternalName(ms[i].name), ms[i].path, ms[i].readOnly))
  }

  function PlatformMounts(app: App): seq<Mount> {
    [Mount("configuration", ConfigPath, true)] + if app.secrets == {} then [] else [Mount("secrets", SecretsPath, true)]
  }

  function CompilerOwnMounts(app: App): seq<Mount> {
    if app.compiler.None? then [] else [Mount("compiled-plans", "/plans", false), Mount("desired-state", "/configs", true)]
  }

  function HostMounts(app: App): seq<Mount> {
    match app.profile
    case Standard => []
    case Metis => [Mount("host-devices", "/dev", false)]
    case GpuNpu => [Mount("host-dri", "/dev/dri", false), Mount("host-accel", "/dev/accel", false)]
  }

  function Mounts(app: App): seq<Mount> {
    PlatformMounts(app) + PersistentMounts(app.persistent) + ExternalMounts(app.external)
    + CompilerOwnMounts(app) + HostMounts(app)
  }

  predicate SharedWithCompiler(m: Mount) {
    "/models/" <= m.path || "/run/secrets/apexfabric/" <= m.path || m.path in {"/dev/dri", "/dev/accel"}
  }

  function SharedMounts(ms: seq<Mount>): (r: seq<Mount>)
    ensures forall m :: m in r ==> m in ms
  {
    if ms == [] then []
    else SharedMounts(ms[..|ms| - 1]) + if SharedWithCompiler(ms[|ms| - 1]) then [ms[|ms| - 1]] else []
  }

  function CompilerMounts(app: App): Option<seq<Mount>> {
    if app.compiler.None? then None
    else Some([Mount("desired-state", "/configs", true), Mount("compiled-plans", "/plans", false)] + SharedMounts(Mounts(app)))
  }

  // ---------------------------------------------------------------- objects

  function NumberOf(ports: seq<Port>, name: string): Option<nat> {
    if ports == [] then None
    else if ports[|ports| - 1].name == name then Some(ports[|ports| - 1].number)
    else NumberOf(ports[..|ports| - 1], name)
  }

  function PodOf(name: string, app: App): Pod {
    Pod(Volumes(name, app), Mounts(app), CompilerMounts(app),
        app.ports,
        [app.readiness, app.liveness] + (if app.startup.Some? then [app.startup.value] else []),
        (if app.metrics.Some? then [app.metrics.value.port] else []) + (if app.events.Some? then [app.events.value] else []),
        if app.metrics.Some? && app.metrics.value.prometheus then NumberOf(app.ports, app.metrics.value.port) else None,
        set e | e in app.secretEnvironment :: SecretRef(e, SecretName(name), app.secretEnvironment[e]))
  }

  function Claims(name: string, vs: seq<Claimed>): (r: seq<Object>)
    ensures |r| == |vs| && forall i :: 0 <= i < |r| ==> r[i] == Object(PersistentVolumeClaim, ClaimName(name, vs[i].name), Plain)
  {
    seq(|vs|, i requires 0 <= i < |vs| => Object(PersistentVolumeClaim, ClaimName(name, vs[i].name), Plain))
  }

  function ConfigObjects(name: string, app: App): seq<Object> {
    [Object(ConfigMap, ConfigName(name), Plain)]
    + if app.secrets == {} then [] else [Object(Secret, SecretName(name), Data(app.secrets))]
  }

  function NetworkObjects(name: string, app: App): seq<Object> {
    if app.ports == [] then [] else [Object(Service, name, Plain), Object(NetworkPolicy, name, Plain)]
  }

  function AppObjects(deploymentId: string, app: App): seq<Object> {
    var name := ObjectName(deploymentId, app.name);
    ConfigObjects(name, app) + Claims(name, app.persistent)
    + [Object(Deployment, name, Workload(PodOf(name, app)))] + NetworkObjects(name, app)
  }

  function AllObjects(deploymentId: string, apps: seq<App>): seq<Object> {
    if apps == [] then []
    else AllObjects(deploymentId, apps[..|apps| - 1]) + AppObjects(deploymentId, apps[|apps| - 1])
  }

  function Rendered(b: Bundle, namespace: string): seq<Object> {
    [Object(Namespace, namespace, Plain)] + AllObjects(b.deploymentId, b.apps)
  }

  // ---------------------------------------------------------------- prunable keys are distinct

  lemma CancelSuffix(a: string, b: string, suffix: string)
    requires a + suffix == b + suffix
    ensures a == b
  {
    assert |a| == |b|;
    assert (a + suffix)[..|a|] == a && (b + suffix)[..|b|] == b;
  }

  lemma CancelPrefix(prefix: string, a: string, b: string)
    requires prefix + a == prefix + b
    ensures a == b
  {
    assert (prefix + a)[|prefix|..] == a && (prefix + b)[|prefix|..] == b;
  }

  ghost predicate OfApp(deploymentId: string, app: App, o: Object) {
    Prunable(o.kind) ==>
      var name := ObjectName(deploymentId, app.name);
      o.name == (if o.kind.ConfigMap? then ConfigName(name) else if o.kind.Secret? then SecretName(name) else name)
  }

  lemma ConfigKeysDistinct(name: string, app: App)
    ensures KeysDistinct(ConfigObjects(name, app)) && KeysDistinct(NetworkObjects(name, app))
    ensures forall o :: o in ConfigObjects(name, app) ==>
              (o.kind.ConfigMap? && o.name == ConfigName(name)) || (o.kind.Secret? && o.name == SecretName(name))
    ensures forall o :: o in NetworkObjects(name, app) ==> o.kind in {Service, NetworkPolicy} && o.name == name
  {
  }

  lemma JoinFour(a: seq<Object>, b: seq<Object>, c: seq<Object>, d: seq<Object>)
    requires KeysDistinct(a) && KeysDistinct(c) && KeysDistinct(d)
    requires forall o :: o in a ==> o.kind in {ConfigMap, Secret}
    requires forall o :: o in b ==> o.kind.PersistentVolumeClaim?
    requires forall o :: o in c ==> o.kind.Deployment?
    requires forall o :: o in d ==> o.kind in {Service, NetworkPolicy}
    ensures KeysDistinct(a + b + c + d)
  {
    JoinKeys(a, b);
    JoinKeys(a + b, c);
    JoinKeys(a + b + c, d);
  }

  lemma AppObjectsAreOfApp(deploymentId: string, app: App)
    ensures forall o :: o in AppObjects(deploymentId, app) ==> OfApp(deploymentId, app, o)
    ensures KeysDistinct(AppObjects(deploymentId, app))
  {
    var name := ObjectName(deploymentId, app.name);
    var workload := Object(Deployment, name, Workload(PodOf(name, app)));
    ConfigKeysDistinct(name, app);
    JoinFour(ConfigObjects(name, app), Claims(name, app.persistent), [workload], NetworkObjects(name, app));
    forall o | o in AppObjects(deploymentId, app) ensures OfApp(deploymentId, app, o) {
      assert o in ConfigObjects(name, app) || o in Claims(name, app.persistent) || o == workload || o in NetworkObjects(name, app);
    }
  }

  /** No two prunable objects share kind and name. */
  ghost predicate KeysDistinct(objects: seq<Object>) {
    forall i, j :: 0 <= i < j < |objects| && Prunable(objects[i].kind) ==>
      objects[i].kind != objects[j].kind || objects[i].name != objects[j].name
  }

  lemma OtherAppOtherName(deploymentId: string, a: App, b: App, o: Object, p: Object)
    requires OfApp(deploymentId, a, o) && OfApp(deploymentId, b, p) && a.name != b.name && Prunable(o.kind) && o.kind == p.kind
    ensures o.name != p.name
  {
    var na, nb := ObjectName(deploymentId, a.name), ObjectName(deploymentId, b.name);
    if o.name == p.name {
      if o.kind.ConfigMap? {
        CancelSuffix(na, nb, "-config");
      } else if o.kind.Secret? {
        CancelSuffix(na, nb, "-secret");
      }
      CancelPrefix(deploymentId + "-", a.name, b.name);
    }
  }

  lemma {:induction false} AllObjectsOfApps(deploymentId: string, apps: seq<App>)
    ensures forall o :: o in AllObjects(deploymentId, apps) ==>
              exists i :: 0 <= i < |apps| && o in AppObjects(deploymentId, apps[i])
  {
    if apps != [] {
      var n := |apps| - 1;
      AllObjectsOfApps(deploymentId, apps[..n]);
      forall o | o in AllObjects(deploymentId, apps)
        ensures exists i :: 0 <= i < |apps| && o in AppObjects(deploymentId, apps[i])
      {
        if o in AllObjects(deploymentId, apps[..n]) {
          var i :| 0 <= i < n && o in AppObjects(deploymentId, apps[..n][i]);
          assert apps[..n][i] == apps[i];
        } else {
          assert o in AppObjects(deploymentId, apps[n]);
        }
      }
    }
  }

  lemma JoinKeys(a: seq<Object>, b: seq<Object>)
    requires KeysDistinct(a) && KeysDistinct(b)
    requires forall o, p :: o in a && p in b && Prunable(o.kind) && o.kind == p.kind ==> o.name != p.name
    ensures KeysDistinct(a + b)
  {
    forall i, j | 0 <= i < j < |a + b| && Prunable((a + b)[i].kind)
      ensures (a + b)[i].kind != (a + b)[j].kind || (a + b)[i].name != (a + b)[j].name
    {
      if i < |a| <= j {
        assert a[i] in a && b[j - |a|] in b;
      }
    }
  }

  lemma AppsApart(deploymentId: string, before: seq<App>, last: App, o: Object, p: Object)
    requires forall i :: 0 <= i < |before| ==> before[i].name != last.name
    requires o in AllObjects(deploymentId, before) && p in AppObjects(deploymentId, last)
    requires Prunable(o.kind) && o.kind == p.kind
    ensures o.name != p.name
  {
    AllObjectsOfApps(deploymentId, before);
    var i :| 0 <= i < |before| && o in AppObjects(deploymentId, before[i]);
    AppObjectsAreOfApp(deploymentId, before[i]);
    AppObjectsAreOfApp(deploymentId, last);
    OtherAppOtherName(deploymentId, before[i], last, o, p);
  }

  lemma {:induction false} AllKeysDistinct(deploymentId: string, apps: seq<App>)
    requires forall i, j :: 0 <= i < j < |apps| ==> apps[i].name != apps[j].name
    ensures KeysDistinct(AllObjects(deploymentId, apps))
  {
    if apps != [] {
      AllKeysDistinct(deploymentId, apps[..|apps| - 1]);
      LastAppKeys(deploymentId, apps);
    }
  }

  lemma LastAppKeys(deploymentId: string, apps: seq<App>)
    requires apps != [] && forall i, j :: 0 <= i < j < |apps| ==> apps[i].name != apps[j].name
    requires KeysDistinct(AllObjects(deploymentId, apps[..|apps| - 1]))
    ensures KeysDistinct(AllObjects(deploymentId, apps))
  {
    var n := |apps| - 1;
    var all, more := AllObjects(deploymentId, apps[..n]), AppObjects(deploymentId, apps[n]);
    assert AllObjects(deploymentId, apps) == all + more;
    assert KeysDistinct(all + more) by { AddAppKeys(deploymentId, apps[..n], apps[n], all, more); }
  }

  lemma AddAppKeys(deploymentId: string, before: seq<App>, last: App, all: seq<Object>, more: seq<Object>)
    requires forall i :: 0 <= i < |before| ==> before[i].name != last.name
    requires all == AllObjects(deploymentId, before) && more == AppObjects(deploymentId, last) && KeysDistinct(all)
    ensures KeysDistinct(all + more)
  {
    forall o, p | o in all && p in more && Prunable(o.kind) && o.kind == p.kind ensures o.name != p.name {
      AppsApart(deploymentId, before, last, o, p);
    }
    assert KeysDistinct(more) by { AppObjectsAreOfApp(deploymentId, last); }
    JoinKeys(all, more);
  }

  /** An accepted bundle renders prunable objects with distinct kind and name. */
  lemma AcceptedKeysDistinct(b: Bundle, namespace: string)
    requires Accepted(b)
    ensures KeysDistinct(Rendered(b, namespace))
  {
    AllKeysDistinct(b.deploymentId, b.apps);
    JoinKeys([Object(Namespace, namespace, Plain)], AllObjects(b.deploymentId, b.apps));
  }

  // ---------------------------------------------------------------- claims are not protected the same way

  ghost predicate ClaimsApart(a: seq<Object>, b: seq<Object>) {
    forall o, p :: o in a && p in b && o.kind.PersistentVolumeClaim? && p.kind.PersistentVolumeClaim? ==> o.name != p.name
  }

  /** No two rendered claims share a name. */
  ghost predicate ClaimsDistinct(objects: seq<Object>) {
    forall i, j :: 0 <= i < j < |objects| && objects[i].kind.PersistentVolumeClaim? && objects[j].kind.PersistentVolumeClaim? ==>
      objects[i].name != objects[j].name
  }

  lemma JoinClaims(a: seq<Object>, b: seq<Object>)
    ensures ClaimsDistinct(a + b) <==> ClaimsDistinct(a) && ClaimsDistinct(b) && ClaimsApart(a, b)
  {
    var all := a + b;
    if ClaimsDistinct(all) {
      assert forall i :: 0 <= i < |a| ==> all[i] == a[i];
      assert forall j :: 0 <= j < |b| ==> all[|a| + j] == b[j];
      forall o, p | o in a && p in b && o.kind.PersistentVolumeClaim? && p.kind.PersistentVolumeClaim? ensures o.name != p.name {
        var i :| 0 <= i < |a| && a[i] == o;
        var j :| 0 <= j < |b| && b[j] == p;
        assert all[i].name != all[|a| + j].name;
      }
    }
    if ClaimsDistinct(a) && ClaimsDistinct(b) && ClaimsApart(a, b) {
      forall i, j | 0 <= i < j < |all| && all[i].kind.PersistentVolumeClaim? && all[j].kind.PersistentVolumeClaim?
        ensures all[i].name != all[j].name
      {
        if i < |a| <= j {
          assert a[i] in a && b[j - |a|] in b;
        }
      }
    }
  }

  function VolumeOf(app: App, i: nat): string
    requires i < |app.persistent|
  {
    app.name + "-" + app.persistent[i].name
  }

  ghost predicate VolumesApart(a: App, b: App) {
    forall i, j :: 0 <= i < |a.persistent| && 0 <= j < |b.persistent| ==> VolumeOf(a, i) != VolumeOf(b, j)
  }

  ghost predicate OwnVolumesDistinct(app: App) {
    forall i, j :: 0 <= i < j < |app.persistent| ==> VolumeOf(app, i) != VolumeOf(app, j)
  }

  /** No two different volumes have the same application and volume name joined by a hyphen. */
  ghost predicate VolumesDistinct(apps: seq<App>) {
    && (forall a :: 0 <= a < |apps| ==> OwnVolumesDistinct(apps[a]))
    && (forall a, b :: 0 <= a < b < |apps| ==> VolumesApart(apps[a], apps[b]))
  }

  lemma ClaimNameIs(deploymentId: string, app: App, i: nat)
    requires i < |app.persistent|
    ensures ClaimName(ObjectName(deploymentId, app.name), app.persistent[i].name) == deploymentId + "-" + VolumeOf(app, i)
  {
    var volume := app.persistent[i].name;
    assert ((deploymentId + "-") + app.name) + ("-" + volume) == (deploymentId + "-") + (app.name + ("-" + volume));
    assert ClaimName(ObjectName(deploymentId, app.name), volume) == ((deploymentId + "-") + app.name) + ("-" + volume);
    assert VolumeOf(app, i) == app.name + ("-" + volume);
  }

  lemma ClaimOfVolume(deploymentId: string, app: App, o: Object)
    ensures o in AppObjects(deploymentId, app) && o.kind.PersistentVolumeClaim? <==>
              exists i :: 0 <= i < |app.persistent| && o == Object(PersistentVolumeClaim, deploymentId + "-" + VolumeOf(app, i), Plain)
  {
    var claims := Claims(ObjectName(deploymentId, app.name), app.persistent);
    forall i | 0 <= i < |claims| ensures claims[i] == Object(PersistentVolumeClaim, deploymentId + "-" + VolumeOf(app, i), Plain) {
      ClaimNameIs(deploymentId, app, i);
    }
    assert o in AppObjects(deploymentId, app) && o.kind.PersistentVolumeClaim? <==> o in claims;
  }

  lemma SameClaimSameVolume(deploymentId: string, a: App, i: nat, b: App, j: nat)
    requires i < |a.persistent| && j < |b.persistent|
    ensures deploymentId + "-" + VolumeOf(a, i) == deploymentId + "-" + VolumeOf(b, j) <==> VolumeOf(a, i) == VolumeOf(b, j)
  {
    if deploymentId + "-" + VolumeOf(a, i) == deploymentId + "-" + VolumeOf(b, j) {
      CancelPrefix(deploymentId + "-", VolumeOf(a, i), VolumeOf(b, j));
    }
  }

  lemma AppClaimsApart(deploymentId: string, a: App, b: App)
    ensures ClaimsApart(AppObjects(deploymentId, a), AppObjects(deploymentId, b)) <==> VolumesApart(a, b)
  {
    var mine, theirs := AppObjects(deploymentId, a), AppObjects(deploymentId, b);
    if ClaimsApart(mine, theirs) {
      forall i, j | 0 <= i < |a.persistent| && 0 <= j < |b.persistent| ensures VolumeOf(a, i) != VolumeOf(b, j) {
        var o := Object(PersistentVolumeClaim, deploymentId + "-" + VolumeOf(a, i), Plain);
        var p := Object(PersistentVolumeClaim, deploymentId + "-" + VolumeOf(b, j), Plain);
        ClaimOfVolume(deploymentId, a, o);
        ClaimOfVolume(deploymentId, b, p);
        assert o.name != p.name;
      }
    }
    if VolumesApart(a, b) {
      forall o, p | o in mine && p in theirs && o.kind.PersistentVolumeClaim? && p.kind.PersistentVolumeClaim?
        ensures o.name != p.name
      {
        ClaimOfVolume(deploymentId, a, o);
        ClaimOfVolume(deploymentId, b, p);
        var i :| 0 <= i < |a.persistent| && o == Object(PersistentVolumeClaim, deploymentId + "-" + VolumeOf(a, i), Plain);
        var j :| 0 <= j < |b.persistent| && p == Object(PersistentVolumeClaim, deploymentId + "-" + VolumeOf(b, j), Plain);
        SameClaimSameVolume(deploymentId, a, i, b, j);
      }
    }
  }

  lemma NoClaims(objects: seq<Object>, more: seq<Object>)
    requires forall o :: o in more ==> !o.kind.PersistentVolumeClaim?
    ensures ClaimsDistinct(objects + more) <==> ClaimsDistinct(objects)
    ensures ClaimsDistinct(more + objects) <==> ClaimsDistinct(objects)
  {
    JoinClaims(objects, more);
    JoinClaims(more, objects);
  }

  lemma OnlyClaims(a: seq<Object>, claims: seq<Object>, c: seq<Object>, d: seq<Object>)
    requires forall o :: o in a + c + d ==> !o.kind.PersistentVolumeClaim?
    ensures ClaimsDistinct(a + claims + c + d) <==> ClaimsDistinct(claims)
  {
    NoClaims(claims, a);
    NoClaims(a + claims, c);
    NoClaims(a + claims + c, d);
  }

  lemma OwnClaimsDistinct(deploymentId: string, app: App)
    ensures ClaimsDistinct(AppObjects(deploymentId, app)) <==> OwnVolumesDistinct(app)
  {
    var name := ObjectName(deploymentId, app.name);
    OnlyClaims(ConfigObjects(name, app), Claims(name, app.persistent),
               [Object(Deployment, name, Workload(PodOf(name, app)))], NetworkObjects(name, app));
    ClaimNamesDistinct(deploymentId, app);
  }

  lemma ClaimNamesDistinct(deploymentId: string, app: App)
    ensures ClaimsDistinct(Claims(ObjectName(deploymentId, app.name), app.persistent)) <==> OwnVolumesDistinct(app)
  {
    var claims := Claims(ObjectName(deploymentId, app.name), app.persistent);
    forall i, j | 0 <= i < j < |app.persistent| ensures claims[i].name == claims[j].name <==> VolumeOf(app, i) == VolumeOf(app, j) {
      ClaimNameIs(deploymentId, app, i);
      ClaimNameIs(deploymentId, app, j);
      SameClaimSameVolume(deploymentId, app, i, app, j);
    }
  }

  lemma ApartFromBoth(a: seq<Object>, b: seq<Object>, c: seq<Object>)
    ensures ClaimsApart(a + b, c) <==> ClaimsApart(a, c) && ClaimsApart(b, c)
  {
    assert forall o :: o in a + b <==> o in a || o in b;
  }

  ghost predicate AllApart(before: seq<App>, last: App) {
    forall a :: 0 <= a < |before| ==> VolumesApart(before[a], last)
  }

  lemma {:induction false} ApartFromAll(deploymentId: string, before: seq<App>, last: App)
    ensures ClaimsApart(AllObjects(deploymentId, before), AppObjects(deploymentId, last)) <==> AllApart(before, last)
  {
    if before == [] {
      NothingApart(AppObjects(deploymentId, last));
    } else {
      ApartFromAll(deploymentId, before[..|before| - 1], last);
      OneMoreApart(deploymentId, before, last);
      OneMoreAllApart(before, last);
    }
  }

  lemma NothingApart(objects: seq<Object>)
    ensures ClaimsApart([], objects)
  {
  }

  lemma OneMoreAllApart(before: seq<App>, last: App)
    requires before != []
    ensures AllApart(before, last) <==>
              AllApart(before[..|before| - 1], last) && VolumesApart(before[|before| - 1], last)
  {
    var n := |before| - 1;
    assert forall a :: 0 <= a < n ==> before[..n][a] == before[a];
  }

  lemma OneMoreApart(deploymentId: string, before: seq<App>, last: App)
    requires before != []
    ensures var n := |before| - 1;
            ClaimsApart(AllObjects(deploymentId, before), AppObjects(deploymentId, last)) <==>
              ClaimsApart(AllObjects(deploymentId, before[..n]), AppObjects(deploymentId, last)) && VolumesApart(before[n], last)
  {
    var n := |before| - 1;
    var all, mine, theirs := AllObjects(deploymentId, before[..n]), AppObjects(deploymentId, before[n]), AppObjects(deploymentId, last);
    assert AllObjects(deploymentId, before) == all + mine;
    assert ClaimsApart(all + mine, theirs) <==> ClaimsApart(all, theirs) && ClaimsApart(mine, theirs) by {
      ApartFromBoth(all, mine, theirs);
    }
    assert ClaimsApart(mine, theirs) <==> VolumesApart(before[n], last) by { AppClaimsApart(deploymentId, before[n], last); }
  }

  lemma {:induction false} AllClaimsDistinct(deploymentId: string, apps: seq<App>)
    ensures ClaimsDistinct(AllObjects(deploymentId, apps)) <==> VolumesDistinct(apps)
  {
    if apps != [] {
      var n := |apps| - 1;
      AllClaimsDistinct(deploymentId, apps[..n]);
      JoinClaims(AllObjects(deploymentId, apps[..n]), AppObjects(deploymentId, apps[n]));
      OwnClaimsDistinct(deploymentId, apps[n]);
      ApartFromAll(deploymentId, apps[..n], apps[n]);
      OneMoreApp(apps);
    }
  }

  lemma OneMoreApp(apps: seq<App>)
    requires apps != []
    ensures var n := |apps| - 1;
            VolumesDistinct(apps) <==>
              VolumesDistinct(apps[..n]) && OwnVolumesDistinct(apps[n]) && AllApart(apps[..n], apps[n])
  {
    var n := |apps| - 1;
    assert forall a :: 0 <= a < n ==> apps[..n][a] == apps[a];
  }

  /** The claims of a bundle have distinct names exactly if no two of its volumes join
      to the same name. Validation compares neither across applications. */
  lemma ClaimsDistinctExactly(b: Bundle, namespace: string)
    ensures ClaimsDistinct(Rendered(b, namespace)) <==> VolumesDistinct(b.apps)
  {
    AllClaimsDistinct(b.deploymentId, b.apps);
    NoClaims(AllObjects(b.deploymentId, b.apps), [Object(Namespace, namespace, Plain)]);
  }

  /** An application with one port, probed three times, and one volume. */
  function Minimal(name: string, volume: string): App {
    App(name, [Port("http", 80)], "http", "http", Some("http"), None, None, [Claimed(volume, "/data")], [], None,
        Standard, true, 0, 0, {}, false, false, false, {}, map[], {})
  }

  lemma MinimalIsAccepted(deploymentId: string, name: string, volume: string)
    requires |deploymentId| + |name| + |volume| <= 61
    ensures AppAccepted(deploymentId, Minimal(name, volume))
  {
    var app := Minimal(name, volume);
    assert app.ports[0].name == "http";
    assert forall rule: Rule :: !Broken(deploymentId, app, rule);
  }

  /** Two applications of an accepted bundle can be given one claim. */
  lemma ClaimsCanCollide(namespace: string)
    ensures var b := Bundle("d", [Minimal("a", "b-c"), Minimal("a-b", "c")]);
            Accepted(b) && !ClaimsDistinct(Rendered(b, namespace))
  {
    var b := Bundle("d", [Minimal("a", "b-c"), Minimal("a-b", "c")]);
    assert |"a"| != |"a-b"|;
    MinimalIsAccepted("d", "a", "b-c");
    MinimalIsAccepted("d", "a-b", "c");
    assert VolumeOf(b.apps[0], 0) == "a-b-c" == VolumeOf(b.apps[1], 0);
    assert !VolumesApart(b.apps[0], b.apps[1]);
    ClaimsDistinctExactly(b, namespace);
  }

  // ---------------------------------------------------------------- inside one pod

  lemma JoinDistinct<T>(a: seq<T>, b: seq<T>)
    requires NoDuplicates(a) && NoDuplicates(b)
    requires forall x :: x in a ==> x !in b
    ensures NoDuplicates(a + b)
  {
    forall i, j | 0 <= i < j < |a + b| ensures (a + b)[i] != (a + b)[j] {
      if i < |a| <= j {
        assert a[i] in a && b[j - |a|] in b;
      }
    }
  }

  function VolumeNames(vs: seq<Volume>): (r: seq<string>)
    ensures |r| == |vs| && forall i :: 0 <= i < |r| ==> r[i] == vs[i].name
  {
    seq(|vs|, i requires 0 <= i < |vs| => vs[i].name)
  }

  function Paths(ms: seq<Mount>): (r: seq<string>)
    ensures |r| == |ms| && forall i :: 0 <= i < |r| ==> r[i] == ms[i].path
  {
    seq(|ms|, i requires 0 <= i < |ms| => ms[i].path)
  }

  lemma PersistentNamesDistinct(name: string, vs: seq<Claimed>)
    requires forall i, j :: 0 <= i < j < |vs| ==> vs[i].name != vs[j].name
    ensures NoDuplicates(VolumeNames(PersistentVolumes(name, vs)))
    ensures forall x :: x in VolumeNames(PersistentVolumes(name, vs)) ==> x != "" && x[0] == 'p'
  {
    forall i, j | 0 <= i < j < |vs| ensures PersistentName(vs[i].name) != PersistentName(vs[j].name) {
      if PersistentName(vs[i].name) == PersistentName(vs[j].name) {
        CancelPrefix("persistent-", vs[i].name, vs[j].name);
      }
    }
  }

  lemma ExternalNamesDistinct(ms: seq<External>)
    requires forall i, j :: 0 <= i < j < |ms| ==> ms[i].name != ms[j].name
    ensures NoDuplicates(VolumeNames(ExternalVolumes(ms)))
    ensures forall x :: x in VolumeNames(ExternalVolumes(ms)) ==> x != "" && x[0] == 'e'
  {
    forall i, j | 0 <= i < j < |ms| ensures ExternalName(ms[i].name) != ExternalName(ms[j].name) {
      if ExternalName(ms[i].name) == ExternalName(ms[j].name) {
        CancelPrefix("external-", ms[i].name, ms[j].name);
      }
    }
  }

  function FixedNames(name: string, app: App): seq<string> {
    ["configuration"] + (if app.secrets == {} then [] else ["secrets"])
  }

  function TailNames(app: App): seq<string> {
    VolumeNames(CompilerVolumes(app) + HostVolumes(app))
  }

  lemma TailNamesDistinct(app: App)
    ensures NoDuplicates(TailNames(app))
    ensures forall x :: x in TailNames(app) ==> x != "" && x[0] in {'d', 'c', 'h'} && x != "configuration"
  {
    assert "compiled-plans"[2] != "configuration"[2];
    assert "host-devices"[6] != "host-dri"[6] && "host-dri"[5] != "host-accel"[5];
  }

  /** The volumes of a pod have distinct names. */
  lemma VolumeNamesDistinct(deploymentId: string, app: App)
    requires AppAccepted(deploymentId, app)
    ensures NoDuplicates(VolumeNames(Volumes(ObjectName(deploymentId, app.name), app)))
  {
    var name := ObjectName(deploymentId, app.name);
    assert !Broken(deploymentId, app, DuplicateVolumeName) && !Broken(deploymentId, app, DuplicateExternalName);
    PersistentNamesDistinct(name, app.persistent);
    ExternalNamesDistinct(app.external);
    TailNamesDistinct(app);
    var fixed, p := FixedNames(name, app), VolumeNames(PersistentVolumes(name, app.persistent));
    var e, tail := VolumeNames(ExternalVolumes(app.external)), TailNames(app);
    assert "configuration"[0] == 'c' && "secrets"[0] == 's';
    JoinDistinct(fixed, p);
    JoinDistinct(fixed + p, e);
    JoinDistinct(fixed + p + e, tail);
    VolumeNamesByPart(name, app);
  }

  lemma VolumeNamesByPart(name: string, app: App)
    ensures VolumeNames(Volumes(name, app))
            == FixedNames(name, app) + VolumeNames(PersistentVolumes(name, app.persistent))
               + VolumeNames(ExternalVolumes(app.external)) + TailNames(app)
  {
    var fixed := [Volume("configuration", ConfigMapVolume(ConfigName(name)))]
                 + if app.secrets == {} then [] else [Volume("secrets", SecretVolume(SecretName(name)))];
    var p, e, tail := PersistentVolumes(name, app.persistent), ExternalVolumes(app.external), CompilerVolumes(app) + HostVolumes(app);
    assert Volumes(name, app) == fixed + p + e + tail;
    JoinNames(fixed, p);
    JoinNames(fixed + p, e);
    JoinNames(fixed + p + e, tail);
    assert VolumeNames(fixed) == FixedNames(name, app);
  }

  lemma JoinNames(a: seq<Volume>, b: seq<Volume>)
    ensures VolumeNames(a + b) == VolumeNames(a) + VolumeNames(b)
  {
  }

  ghost predicate Declared(volumes: seq<Volume>, m: Mount) {
    exists v :: v in volumes && v.name == m.volume
  }

  lemma PartsAreDeclared(name: string, app: App)
    ensures forall m :: m in PersistentMounts(app.persistent) ==> Declared(PersistentVolumes(name, app.persistent), m)
    ensures forall m :: m in ExternalMounts(app.external) ==> Declared(ExternalVolumes(app.external), m)
    ensures forall m :: m in CompilerOwnMounts(app) ==> Declared(CompilerVolumes(app), m)
    ensures forall m :: m in HostMounts(app) ==> Declared(HostVolumes(app), m)
  {
    forall m | m in PersistentMounts(app.persistent) ensures Declared(PersistentVolumes(name, app.persistent), m) {
      var i :| 0 <= i < |app.persistent| && PersistentMounts(app.persistent)[i] == m;
      assert PersistentVolumes(name, app.persistent)[i].name == m.volume;
    }
    forall m | m in ExternalMounts(app.external) ensures Declared(ExternalVolumes(app.external), m) {
      var i :| 0 <= i < |app.external| && ExternalMounts(app.external)[i] == m;
      assert ExternalVolumes(app.external)[i].name == m.volume;
    }
    if app.compiler.Some? {
      assert CompilerVolumes(app)[0].name == "desired-state" && CompilerVolumes(app)[1].name == "compiled-plans";
    }
    if app.profile.Metis? {
      assert HostVolumes(app)[0].name == "host-devices";
    } else if app.profile.GpuNpu? {
      assert HostVolumes(app)[0].name == "host-dri" && HostVolumes(app)[1].name == "host-accel";
    }
  }

  /** Every mount of the main and of the plan-compiler container names a declared volume. */
  lemma MountsAreDeclared(name: string, app: App)
    ensures forall m :: m in Mounts(app) ==> Declared(Volumes(name, app), m)
    ensures app.compiler.Some? ==> forall m :: m in CompilerMounts(app).value ==> Declared(Volumes(name, app), m)
  {
    PartsAreDeclared(name, app);
    forall m | m in Mounts(app) ensures Declared(Volumes(name, app), m) {
      if m in PlatformMounts(app) {
        assert Volumes(name, app)[0].name == "configuration";
        if app.secrets != {} {
          assert Volumes(name, app)[1].name == "secrets";
        }
      }
    }
    if app.compiler.Some? {
      assert Mount("compiled-plans", "/plans", false) == CompilerOwnMounts(app)[0];
      assert Mount("desired-state", "/configs", true) == CompilerOwnMounts(app)[1];
      assert Mount("compiled-plans", "/plans", false) in Mounts(app) && Mount("desired-state", "/configs", true) in Mounts(app);
    }
  }

  /** The object a volume is filled from is this one. */
  predicate FilledFrom(v: Volume, o: Object) {
    match v.source
    case ConfigMapVolume(c) => o.kind.ConfigMap? && o.name == c
    case SecretVolume(c) => o.kind.Secret? && o.name == c
    case ClaimVolume(c) => o.kind.PersistentVolumeClaim? && o.name == c
    case _ => false
  }

  /** The bundle names this volume's source itself, as an external mount or the plan compiler's input. */
  ghost predicate NamedInBundle(app: App, v: Volume) {
    || (exists m :: m in app.external && v == Volume("external-" + m.name, ExternalSource(m.source)))
    || (app.compiler.Some? && v.name == "desired-state")
  }

  lemma OwnVolumesAreFilled(deploymentId: string, app: App, i: nat)
    requires i < |app.persistent|
    ensures var name := ObjectName(deploymentId, app.name);
            && PersistentVolumes(name, app.persistent)[i] in Volumes(name, app)
            && Claims(name, app.persistent)[i] in AppObjects(deploymentId, app)
            && FilledFrom(PersistentVolumes(name, app.persistent)[i], Claims(name, app.persistent)[i])
  {
    var name := ObjectName(deploymentId, app.name);
    assert Claims(name, app.persistent)[i] in Claims(name, app.persistent);
  }

  lemma PlatformVolumesAreFilled(deploymentId: string, app: App)
    ensures var name := ObjectName(deploymentId, app.name);
            var config := Object(ConfigMap, ConfigName(name), Plain);
            && Volumes(name, app)[0] == Volume("configuration", ConfigMapVolume(config.name))
            && config in AppObjects(deploymentId, app)
    ensures var name := ObjectName(deploymentId, app.name);
            var secret := Object(Secret, SecretName(name), Data(app.secrets));
            (app.secrets != {} ==>
              && |Volumes(name, app)| > 1 && Volumes(name, app)[1] == Volume("secrets", SecretVolume(secret.name))
              && secret in AppObjects(deploymentId, app))
  {
    var name := ObjectName(deploymentId, app.name);
    assert ConfigObjects(name, app)[0] == Object(ConfigMap, ConfigName(name), Plain);
    if app.secrets != {} {
      assert ConfigObjects(name, app)[1] == Object(Secret, SecretName(name), Data(app.secrets));
    }
  }

  /** Every volume of a pod that the bundle does not name itself and that is not the node's
      own is filled from an object rendered with it, ... */
  lemma VolumesAreRendered(deploymentId: string, app: App, v: Volume)
    requires v in Volumes(ObjectName(deploymentId, app.name), app)
    requires !NamedInBundle(app, v) && !v.source.EmptyDir? && !v.source.HostPath?
    ensures exists o :: o in AppObjects(deploymentId, app) && FilledFrom(v, o)
  {
    var name := ObjectName(deploymentId, app.name);
    PlatformVolumesAreFilled(deploymentId, app);
    if v in PersistentVolumes(name, app.persistent) {
      var i :| 0 <= i < |app.persistent| && PersistentVolumes(name, app.persistent)[i] == v;
      OwnVolumesAreFilled(deploymentId, app, i);
    }
  }

  /** ... and every configuration, secret and claim rendered with a pod fills one of its volumes. */
  lemma RenderedAreMounted(deploymentId: string, app: App, o: Object)
    requires o in AppObjects(deploymentId, app) && o.kind in {ConfigMap, Secret, PersistentVolumeClaim}
    ensures exists v :: v in Volumes(ObjectName(deploymentId, app.name), app) && FilledFrom(v, o)
  {
    var name := ObjectName(deploymentId, app.name);
    PlatformVolumesAreFilled(deploymentId, app);
    if o in Claims(name, app.persistent) {
      var i :| 0 <= i < |app.persistent| && Claims(name, app.persistent)[i] == o;
      OwnVolumesAreFilled(deploymentId, app, i);
    } else {
      var volumes := Volumes(name, app);
      assert o in ConfigObjects(name, app);
      assert FilledFrom(volumes[if o.kind.ConfigMap? then 0 else 1], o);
    }
  }

  /** The paths validation forgets: the compiler's input and the GPU profile's devices. */
  ghost predicate LeavesRoom(app: App) {
    && (app.compiler.Some? ==> "/configs" !in OwnPaths(app))
    && (app.profile.GpuNpu? ==> "/dev/dri" !in OwnPaths(app) && "/dev/accel" !in OwnPaths(app))
  }

  function HeadPaths(app: App): seq<string> {
    Paths(PlatformMounts(app))
  }

  function TailPaths(app: App): seq<string> {
    Paths(CompilerOwnMounts(app) + HostMounts(app))
  }

  lemma FixedPathsDistinct(app: App)
    ensures NoDuplicates(HeadPaths(app)) && NoDuplicates(TailPaths(app))
    ensures forall x :: x in HeadPaths(app) ==> x in PlatformPaths && x !in TailPaths(app)
    ensures forall x :: x in TailPaths(app) <==>
              || (app.compiler.Some? && x in {"/plans", "/configs"})
              || (app.profile.Metis? && x == "/dev")
              || (app.profile.GpuNpu? && x in {"/dev/dri", "/dev/accel"})
  {
    var tail := TailPaths(app);
    assert |ConfigPath| == 22 && |SecretsPath| == 23;
    assert |"/plans"| == 6 && |"/configs"| == 8 && |"/dev"| == 4 && |"/dev/dri"| == 8 && |"/dev/accel"| == 10;
    assert "/configs"[1] != "/dev/dri"[1];
    if app.compiler.Some? {
      assert tail[0] == "/plans" && tail[1] == "/configs";
    }
    if app.profile.GpuNpu? {
      assert tail[|tail| - 2] == "/dev/dri" && tail[|tail| - 1] == "/dev/accel";
    } else if app.profile.Metis? {
      assert tail[|tail| - 1] == "/dev";
    }
  }

  lemma OwnPathsDistinct(deploymentId: string, app: App)
    requires AppAccepted(deploymentId, app)
    ensures NoDuplicates(OwnPaths(app))
    ensures forall x :: x in OwnPaths(app) ==> x !in PlatformPaths && (app.compiler.Some? ==> x != "/plans")
  {
    assert !Broken(deploymentId, app, DuplicateVolumePath) && !Broken(deploymentId, app, DuplicateExternalPath);
    assert !Broken(deploymentId, app, ExternalConflict) && !Broken(deploymentId, app, VolumeOnPlatformPath);
    assert !Broken(deploymentId, app, ExternalOnPlatformPath) && !Broken(deploymentId, app, PlansTaken);
    JoinDistinct(ClaimedPaths(app.persistent), ExternalPaths(app.external));
  }

  lemma AllPaths(app: App)
    ensures Paths(Mounts(app)) == HeadPaths(app) + OwnPaths(app) + TailPaths(app)
  {
  }

  lemma SharedIsTwice<T>(a: seq<T>, b: seq<T>, c: seq<T>, x: T)
    requires x in b && x in c
    ensures !NoDuplicates(a + b + c)
  {
    var i :| 0 <= i < |b| && b[i] == x;
    var j :| 0 <= j < |c| && c[j] == x;
    assert (a + b + c)[|a| + i] == (a + b + c)[|a| + |b| + j];
  }

  /** The main container of an accepted application mounts every path once exactly if
      the application leaves the compiler's and the device paths free. */
  lemma PathsDistinctExactly(deploymentId: string, app: App)
    requires AppAccepted(deploymentId, app)
    ensures NoDuplicates(Paths(Mounts(app))) <==> LeavesRoom(app)
  {
    FixedPathsDistinct(app);
    OwnPathsDistinct(deploymentId, app);
    AllPaths(app);
    var head, own, tail := HeadPaths(app), OwnPaths(app), TailPaths(app);
    if LeavesRoom(app) {
      JoinDistinct(head, own);
      JoinDistinct(head + own, tail);
    } else {
      var x :| x in own && x in tail;
      SharedIsTwice(head, own, tail, x);
    }
  }

  lemma {:induction false} NumberIsDeclared(ports: seq<Port>, name: string)
    requires PortDeclared(ports, name)
    ensures NumberOf(ports, name).Some? && Port(name, NumberOf(ports, name).value) in ports
  {
    var n := |ports| - 1;
    if ports[n].name != name {
      var i :| 0 <= i < |ports| && ports[i].name == name;
      assert ports[..n][i].name == name;
      NumberIsDeclared(ports[..n], name);
    }
  }

  /** Every probe and telemetry port is a declared port, and the scraped number is
      one that the container exposes. */
  lemma PortsResolve(deploymentId: string, app: App, name: string)
    requires AppAccepted(deploymentId, app)
    ensures var pod := PodOf(name, app);
            && (forall p :: p in pod.probes + pod.telemetry ==> PortDeclared(pod.ports, p))
            && (app.metrics.Some? && app.metrics.value.prometheus ==>
                  pod.scraped.Some? && Port(app.metrics.value.port, pod.scraped.value) in pod.ports)
  {
    assert !Broken(deploymentId, app, UnknownProbePort) && !Broken(deploymentId, app, UnknownTelemetryPort);
    if app.metrics.Some? {
      NumberIsDeclared(app.ports, app.metrics.value.port);
    }
  }

  ghost predicate Backs(o: Object, r: SecretRef) {
    o.kind.Secret? && o.name == r.secret && o.body.Data? && r.key in o.body.keys
  }

  /** Every secret reference is backed by a key of the application's rendered Secret. */
  lemma SecretsResolve(deploymentId: string, app: App, r: SecretRef)
    requires AppAccepted(deploymentId, app)
    requires r in PodOf(ObjectName(deploymentId, app.name), app).secretRefs
    ensures exists o :: o in AppObjects(deploymentId, app) && Backs(o, r)
  {
    assert !Broken(deploymentId, app, UnknownSecret);
    var name := ObjectName(deploymentId, app.name);
    assert r.key in app.secrets;
    var o := Object(Secret, SecretName(name), Data(app.secrets));
    assert ConfigObjects(name, app)[1] == o && Backs(o, r);
    assert o in AppObjects(deploymentId, app);
  }

  // ---------------------------------------------------------------- secrets, names and environment

  /** A volume of this name that is backed by a Secret only if the mount is read-only. */
  ghost predicate DeclaredSafely(volumes: seq<Volume>, m: Mount) {
    exists v :: v in volumes && v.name == m.volume && (v.source.SecretVolume? ==> m.readOnly)
  }

  lemma OwnMountsAreSafe(deploymentId: string, app: App, name: string)
    requires !Broken(deploymentId, app, WritableSecret)
    ensures forall m :: m in PersistentMounts(app.persistent) ==> DeclaredSafely(PersistentVolumes(name, app.persistent), m)
    ensures forall m :: m in ExternalMounts(app.external) ==> DeclaredSafely(ExternalVolumes(app.external), m)
  {
    forall m | m in PersistentMounts(app.persistent) ensures DeclaredSafely(PersistentVolumes(name, app.persistent), m) {
      var i :| 0 <= i < |app.persistent| && PersistentMounts(app.persistent)[i] == m;
      assert PersistentVolumes(name, app.persistent)[i].name == m.volume;
    }
    forall m | m in ExternalMounts(app.external) ensures DeclaredSafely(ExternalVolumes(app.external), m) {
      var i :| 0 <= i < |app.external| && ExternalMounts(app.external)[i] == m;
      assert ExternalVolumes(app.external)[i].name == m.volume;
    }
  }

  lemma PlatformMountsAreSafe(name: string, app: App)
    ensures forall m :: m in PlatformMounts(app) + CompilerOwnMounts(app) + HostMounts(app) ==>
              DeclaredSafely(Volumes(name, app), m)
  {
    var volumes := Volumes(name, app);
    assert volumes[0].name == "configuration" && volumes[0] in volumes;
    if app.secrets != {} {
      assert volumes[1].name == "secrets" && volumes[1] in volumes;
    }
    if app.compiler.Some? {
      assert CompilerVolumes(app)[0] in volumes && CompilerVolumes(app)[1] in volumes;
    }
    if app.profile.Metis? {
      assert HostVolumes(app)[0] in volumes;
    } else if app.profile.GpuNpu? {
      assert HostVolumes(app)[0] in volumes && HostVolumes(app)[1] in volumes;
    }
  }

  lemma MountsAreSafe(deploymentId: string, app: App, name: string, m: Mount)
    requires AppAccepted(deploymentId, app) && m in Mounts(app)
    ensures DeclaredSafely(Volumes(name, app), m)
  {
    assert !Broken(deploymentId, app, WritableSecret);
    OwnMountsAreSafe(deploymentId, app, name);
    PlatformMountsAreSafe(name, app);
    if m in PersistentMounts(app.persistent) {
      assert DeclaredSafely(PersistentVolumes(name, app.persistent), m);
    } else if m in ExternalMounts(app.external) {
      assert DeclaredSafely(ExternalVolumes(app.external), m);
    }
  }

  lemma SameNameSameVolume(volumes: seq<Volume>, v: Volume, u: Volume)
    requires NoDuplicates(VolumeNames(volumes)) && v in volumes && u in volumes && v.name == u.name
    ensures v == u
  {
    var i :| 0 <= i < |volumes| && volumes[i] == v;
    var j :| 0 <= j < |volumes| && volumes[j] == u;
    assert VolumeNames(volumes)[i] == VolumeNames(volumes)[j];
  }

  /** In an accepted application whatever is mounted from a Secret is mounted read-only. */
  lemma SecretMountsAreReadOnly(deploymentId: string, app: App, m: Mount, v: Volume)
    requires AppAccepted(deploymentId, app) && m in Mounts(app)
    requires v in Volumes(ObjectName(deploymentId, app.name), app) && v.name == m.volume && v.source.SecretVolume?
    ensures m.readOnly
  {
    var volumes := Volumes(ObjectName(deploymentId, app.name), app);
    MountsAreSafe(deploymentId, app, ObjectName(deploymentId, app.name), m);
    VolumeNamesDistinct(deploymentId, app);
    var u :| u in volumes && u.name == m.volume && (u.source.SecretVolume? ==> m.readOnly);
    SameNameSameVolume(volumes, v, u);
  }

  /** Every name that must be a DNS label is one in length. */
  lemma NamesFit(deploymentId: string, app: App, o: Object)
    requires AppAccepted(deploymentId, app) && o in AppObjects(deploymentId, app)
    requires o.kind in {Deployment, Service, NetworkPolicy, PersistentVolumeClaim}
    ensures |o.name| <= 63
  {
    assert !Broken(deploymentId, app, LongName) && !Broken(deploymentId, app, LongClaimName);
    var name := ObjectName(deploymentId, app.name);
    if o.kind.PersistentVolumeClaim? {
      var i :| 0 <= i < |app.persistent| && Claims(name, app.persistent)[i] == o;
    } else {
      AppObjectsAreOfApp(deploymentId, app);
    }
  }

  /** The names of a container's environment: configured, from secrets, and the platform's own. */
  function EnvironmentNames(app: App): multiset<string> {
    multiset(app.environment) + multiset(app.secretEnvironment.Keys) + multiset(Reserved)
  }

  /** Each environment name of an accepted application occurs once exactly if it is
      not both a plain and a secret one, which validation does not rule out. */
  lemma EnvironmentDistinctExactly(deploymentId: string, app: App)
    requires AppAccepted(deploymentId, app)
    ensures (forall e :: EnvironmentNames(app)[e] <= 1) <==> app.environment !! app.secretEnvironment.Keys
  {
    assert !Broken(deploymentId, app, ReservedEnvironment);
    var names := EnvironmentNames(app);
    forall e ensures names[e] == (if e in app.environment then 1 else 0)
                                 + (if e in app.secretEnvironment then 1 else 0) + (if e in Reserved then 1 else 0) {
      if e in Reserved {
        assert e !in (app.environment + app.secretEnvironment.Keys) * Reserved;
      }
    }
    if e :| e in app.environment && e in app.secretEnvironment.Keys {
      assert names[e] > 1;
    }
    if app.environment !! app.secretEnvironment.Keys {
      forall e ensures names[e] <= 1 {
        assert e !in (app.environment + app.secretEnvironment.Keys) * Reserved;
      }
    }
  }

  // ---------------------------------------------------------------- rendering as it runs

  /** Appends the objects of one application after another. */
  method Render(b: Bundle, namespace: string) returns (objects: seq<Object>)
    ensures objects == Rendered(b, namespace)
  {
    objects := [Object(Namespace, namespace, Plain)];
    var i := 0;
    while i < |b.apps|
      invariant 0 <= i <= |b.apps|
      invariant objects == [Object(Namespace, namespace, Plain)] + AllObjects(b.deploymentId, b.apps[..i])
    {
      var more := RenderApp(b.deploymentId, b.apps[i]);
      AllOfOneMore(b.deploymentId, b.apps, i);
      Regroup([Object(Namespace, namespace, Plain)], AllObjects(b.deploymentId, b.apps[..i]), more);
      objects := objects + more;
      i := i + 1;
    }
    assert b.apps[..i] == b.apps;
  }

  lemma AllOfOneMore(deploymentId: string, apps: seq<App>, i: nat)
    requires i < |apps|
    ensures AllObjects(deploymentId, apps[..i + 1]) == AllObjects(deploymentId, apps[..i]) + AppObjects(deploymentId, apps[i])
  {
    assert apps[..i + 1][..i] == apps[..i];
  }

  lemma Regroup(a: seq<Object>, b: seq<Object>, c: seq<Object>)
    ensures (a + b) + c == a + (b + c)
  {
  }

  method RenderApp(deploymentId: string, app: App) returns (objects: seq<Object>)
    ensures objects == AppObjects(deploymentId, app)
  {
    var name := ObjectName(deploymentId, app.name);
    objects := [Object(ConfigMap, ConfigName(name), Plain)];
    if app.secrets != {} {
      objects := objects + [Object(Secret, SecretName(name), Data(app.secrets))];
    }
    assert objects == ConfigObjects(name, app);
    var claims := RenderClaims(name, app.persistent);
    var pod := RenderPod(name, app);
    objects := objects + claims + [Object(Deployment, name, Workload(pod))];
    if app.ports != [] {
      objects := objects + [Object(Service, name, Plain), Object(NetworkPolicy, name, Plain)];
    }
  }

  method RenderClaims(name: string, vs: seq<Claimed>) returns (claims: seq<Object>)
    ensures claims == Claims(name, vs)
  {
    claims := [];
    var i := 0;
    while i < |vs|
      invariant 0 <= i <= |vs| && claims == Claims(name, vs)[..i]
    {
      claims := claims + [Object(PersistentVolumeClaim, ClaimName(name, vs[i].name), Plain)];
      i := i + 1;
    }
  }

  /** Volumes and mounts grow side by side. */
  method RenderPod(name: string, app: App) returns (pod: Pod)
    ensures pod == PodOf(name, app)
  {
    var mounts, volumes := [Mount("configuration", ConfigPath, true)], [Volume("configuration", ConfigMapVolume(ConfigName(name)))];
    if app.secrets != {} {
      mounts := mounts + [Mount("secrets", SecretsPath, true)];
      volumes := volumes + [Volume("secrets", SecretVolume(SecretName(name)))];
    }
    assert mounts == PlatformMounts(app);
    mounts, volumes := AddPersistent(name, app.persistent, mounts, volumes);
    mounts, volumes := AddExternal(app.external, mounts, volumes);
    volumes := volumes + CompilerVolumes(app) + HostVolumes(app);
    mounts := mounts + CompilerOwnMounts(app) + HostMounts(app);
    pod := PodOf(name, app).(volumes := volumes, mounts := mounts);
  }

  method AddPersistent(name: string, vs: seq<Claimed>, mounts0: seq<Mount>, volumes0: seq<Volume>)
    returns (mounts: seq<Mount>, volumes: seq<Volume>)
    ensures mounts == mounts0 + PersistentMounts(vs) && volumes == volumes0 + PersistentVolumes(name, vs)
  {
    mounts, volumes := mounts0, volumes0;
    var i := 0;
    while i < |vs|
      invariant 0 <= i <= |vs|
      invariant mounts == mounts0 + PersistentMounts(vs)[..i]
      invariant volumes == volumes0 + PersistentVolumes(name, vs)[..i]
    {
      mounts := mounts + [Mount(PersistentName(vs[i].name), vs[i].path, false)];
      volumes := volumes + [Volume(PersistentName(vs[i].name), ClaimVolume(ClaimName(name, vs[i].name)))];
      i := i + 1;
    }
  }

  method AddExternal(ms: seq<External>, mounts0: seq<Mount>, volumes0: seq<Volume>)
    returns (mounts: seq<Mount>, volumes: seq<Volume>)
    ensures mounts == mounts0 + ExternalMounts(ms) && volumes == volumes0 + ExternalVolumes(ms)
  {
    mounts, volumes := mounts0, volumes0;
    var i := 0;
    while i < |ms|
      invariant 0 <= i <= |ms|
      invariant mounts == mounts0 + ExternalMounts(ms)[..i]
      invariant volumes == volumes0 + ExternalVolumes(ms)[..i]
    {
      mounts := mounts + [Mount(ExternalName(ms[i].name), ms[i].path, ms[i].readOnly)];
      volumes := volumes + [Volume(ExternalName(ms[i].name), ExternalSource(ms[i].source))];
      i := i + 1;
    }
  }

  // ---------------------------------------------------------------- reconciling

  type Key = (Kind, string)

  function KeyOf(o: Object): Key {
    (o.kind, o.name)
  }

  /** What runs in the namespace; `owner` is the deployment a managed object is labelled with. */
  datatype Running = Running(owner: Option<string>, body: Body)
  type Cluster = map<Key, Running>

  function Applied(cluster: Cluster, objects: seq<Object>, deploymentId: string): Cluster {
    if objects == [] then cluster
    else
      var o := objects[|objects| - 1];
      Applied(cluster, objects[..|objects| - 1], deploymentId)[
        KeyOf(o) := Running(if o.kind.Namespace? then None else Some(deploymentId), o.body)]
  }

  predicate Desired(objects: seq<Object>, key: Key) {
    exists i :: 0 <= i < |objects| && KeyOf(objects[i]) == key
  }

  /** Managed by this deployment, of a kind that is pruned, and no longer rendered. */
  predicate Obsolete(cluster: Cluster, objects: seq<Object>, deploymentId: string, key: Key) {
    key in cluster && cluster[key].owner == Some(deploymentId) && Prunable(key.0) && !Desired(objects, key)
  }

  function Reconciled(cluster: Cluster, objects: seq<Object>, deploymentId: string): Cluster {
    var applied := Applied(cluster, objects, deploymentId);
    map key | key in applied && !Obsolete(applied, objects, deploymentId, key) :: applied[key]
  }

  lemma {:induction false} AppliedAt(cluster: Cluster, objects: seq<Object>, deploymentId: string, key: Key)
    ensures var applied := Applied(cluster, objects, deploymentId);
            && (key in applied <==> key in cluster || Desired(objects, key))
            && (!Desired(objects, key) && key in cluster ==> applied[key] == cluster[key])
            && (Desired(objects, key) ==>
                  applied[key].owner == if key.0.Namespace? then None else Some(deploymentId))
  {
    if objects != [] {
      var n := |objects| - 1;
      AppliedAt(cluster, objects[..n], deploymentId, key);
      assert Desired(objects, key) <==> Desired(objects[..n], key) || KeyOf(objects[n]) == key by {
        if Desired(objects[..n], key) {
          var i :| 0 <= i < n && KeyOf(objects[..n][i]) == key;
          assert KeyOf(objects[i]) == key;
        }
        if i :| 0 <= i < |objects| && KeyOf(objects[i]) == key && i < n {
          assert KeyOf(objects[..n][i]) == key;
        }
      }
    }
  }

  /** After reconciling, the deployment's prunable objects are exactly the rendered
      ones, no claim was deleted, and what other deployments or nobody own is
      untouched unless it was rendered over. */
  lemma ReconcileIsExact(cluster: Cluster, objects: seq<Object>, deploymentId: string, key: Key)
    ensures var after := Reconciled(cluster, objects, deploymentId);
            && (Prunable(key.0) ==>
                  (key in after && after[key].owner == Some(deploymentId) <==> Desired(objects, key)))
            && (key.0.PersistentVolumeClaim? && key in cluster ==> key in after)
            && (key in cluster && cluster[key].owner != Some(deploymentId) && !Desired(objects, key) ==>
                  key in after && after[key] == cluster[key])
  {
    AppliedAt(cluster, objects, deploymentId, key);
  }

  /** What is applied last under a key is what runs there. */
  lemma {:induction false} LastAppliedRuns(cluster: Cluster, objects: seq<Object>, deploymentId: string, i: nat)
    requires i < |objects| && forall j :: i < j < |objects| ==> KeyOf(objects[j]) != KeyOf(objects[i])
    ensures var o := objects[i];
            KeyOf(o) in Applied(cluster, objects, deploymentId)
            && Applied(cluster, objects, deploymentId)[KeyOf(o)]
               == Running(if o.kind.Namespace? then None else Some(deploymentId), o.body)
  {
    var n := |objects| - 1;
    if i < n {
      assert KeyOf(objects[n]) != KeyOf(objects[i]);
      LastAppliedRuns(cluster, objects[..n], deploymentId, i);
    }
  }

  /** Reconciling with an accepted bundle makes the namespace run that bundle: every
      prunable object it renders runs with the content it was rendered with, and nothing
      else that is prunable is left of the deployment. */
  lemma ReconcileRunsTheBundle(cluster: Cluster, b: Bundle, namespace: string)
    requires Accepted(b)
    ensures var objects := Rendered(b, namespace);
            var after := Reconciled(cluster, objects, b.deploymentId);
            && (forall o :: o in objects && Prunable(o.kind) ==>
                  KeyOf(o) in after && after[KeyOf(o)] == Running(Some(b.deploymentId), o.body))
            && (forall key :: key in after && Prunable(key.0) && after[key].owner == Some(b.deploymentId) ==>
                  exists o :: o in objects && KeyOf(o) == key)
  {
    var objects := Rendered(b, namespace);
    var after := Reconciled(cluster, objects, b.deploymentId);
    AcceptedKeysDistinct(b, namespace);
    forall o | o in objects && Prunable(o.kind)
      ensures KeyOf(o) in after && after[KeyOf(o)] == Running(Some(b.deploymentId), o.body)
    {
      var i :| 0 <= i < |objects| && objects[i] == o;
      LastAppliedRuns(cluster, objects, b.deploymentId, i);
      assert Desired(objects, KeyOf(o));
    }
    forall key | key in after && Prunable(key.0) && after[key].owner == Some(b.deploymentId)
      ensures exists o :: o in objects && KeyOf(o) == key
    {
      ReconcileIsExact(cluster, objects, b.deploymentId, key);
      var i :| 0 <= i < |objects| && KeyOf(objects[i]) == key;
      assert objects[i] in objects;
    }
  }

  // ---------------------------------------------------------------- two deployments in one namespace

  /** No object name of one bundle is one of the other: deployment and application are
      only joined by a hyphen. */
  ghost predicate NamesApart(a: Bundle, b: Bundle) {
    forall i, j :: 0 <= i < |a.apps| && 0 <= j < |b.apps| ==>
      ObjectName(a.deploymentId, a.apps[i].name) != ObjectName(b.deploymentId, b.apps[j].name)
  }

  ghost predicate KeysApart(a: seq<Object>, b: seq<Object>) {
    forall o, p :: o in a && p in b && Prunable(o.kind) ==> KeyOf(o) != KeyOf(p)
  }

  lemma {:induction false} AppIsRendered(deploymentId: string, apps: seq<App>, i: nat)
    requires i < |apps|
    ensures forall o :: o in AppObjects(deploymentId, apps[i]) ==> o in AllObjects(deploymentId, apps)
  {
    if i < |apps| - 1 {
      AppIsRendered(deploymentId, apps[..|apps| - 1], i);
    }
  }

  function WorkloadOf(b: Bundle, i: nat): Object
    requires i < |b.apps|
  {
    var name := ObjectName(b.deploymentId, b.apps[i].name);
    Object(Deployment, name, Workload(PodOf(name, b.apps[i])))
  }

  lemma WorkloadIsRendered(b: Bundle, namespace: string, i: nat)
    requires i < |b.apps|
    ensures WorkloadOf(b, i) in Rendered(b, namespace)
  {
    var name := ObjectName(b.deploymentId, b.apps[i].name);
    AppIsRendered(b.deploymentId, b.apps, i);
    assert WorkloadOf(b, i) in [WorkloadOf(b, i)];
    assert WorkloadOf(b, i) in AppObjects(b.deploymentId, b.apps[i]);
  }

  lemma RenderedByApp(b: Bundle, namespace: string, o: Object) returns (i: nat)
    requires o in Rendered(b, namespace) && Prunable(o.kind)
    ensures i < |b.apps| && OfApp(b.deploymentId, b.apps[i], o)
  {
    AllObjectsOfApps(b.deploymentId, b.apps);
    i :| 0 <= i < |b.apps| && o in AppObjects(b.deploymentId, b.apps[i]);
    AppObjectsAreOfApp(b.deploymentId, b.apps[i]);
  }

  lemma SameKeySameName(a: Bundle, i: nat, b: Bundle, j: nat, o: Object, p: Object)
    requires i < |a.apps| && j < |b.apps| && Prunable(o.kind) && KeyOf(o) == KeyOf(p)
    requires OfApp(a.deploymentId, a.apps[i], o) && OfApp(b.deploymentId, b.apps[j], p)
    ensures ObjectName(a.deploymentId, a.apps[i].name) == ObjectName(b.deploymentId, b.apps[j].name)
  {
    var mine, theirs := ObjectName(a.deploymentId, a.apps[i].name), ObjectName(b.deploymentId, b.apps[j].name);
    if o.kind.ConfigMap? {
      CancelSuffix(mine, theirs, "-config");
    } else if o.kind.Secret? {
      CancelSuffix(mine, theirs, "-secret");
    }
  }

  /** Two bundles render no prunable object under one kind and name exactly if no two of
      their applications join to the same name. */
  lemma KeysApartExactly(a: Bundle, b: Bundle, namespace: string)
    ensures KeysApart(Rendered(a, namespace), Rendered(b, namespace)) <==> NamesApart(a, b)
  {
    if NamesApart(a, b) {
      forall o, p | o in Rendered(a, namespace) && p in Rendered(b, namespace) && Prunable(o.kind) ensures KeyOf(o) != KeyOf(p) {
        if KeyOf(o) == KeyOf(p) {
          var i := RenderedByApp(a, namespace, o);
          var j := RenderedByApp(b, namespace, p);
          SameKeySameName(a, i, b, j, o, p);
        }
      }
    } else {
      var i, j :| 0 <= i < |a.apps| && 0 <= j < |b.apps|
                  && ObjectName(a.deploymentId, a.apps[i].name) == ObjectName(b.deploymentId, b.apps[j].name);
      WorkloadIsRendered(a, namespace, i);
      WorkloadIsRendered(b, namespace, j);
      assert KeyOf(WorkloadOf(a, i)) == KeyOf(WorkloadOf(b, j));
    }
  }

  /** Everything prunable among these objects runs, as it was rendered. */
  ghost predicate Runs(cluster: Cluster, objects: seq<Object>, deploymentId: string) {
    forall o :: o in objects && Prunable(o.kind) ==>
      KeyOf(o) in cluster && cluster[KeyOf(o)] == Running(Some(deploymentId), o.body)
  }

  lemma SecondReconcileDecides(once: Cluster, mine: seq<Object>, owner: string, theirs: seq<Object>, other: string)
    requires owner != other && Runs(once, mine, owner)
    ensures Runs(Reconciled(once, theirs, other), mine, owner) <==> KeysApart(mine, theirs)
  {
    var twice := Reconciled(once, theirs, other);
    if KeysApart(mine, theirs) {
      forall o | o in mine && Prunable(o.kind)
        ensures KeyOf(o) in twice && twice[KeyOf(o)] == Running(Some(owner), o.body)
      {
        assert !Desired(theirs, KeyOf(o));
        ReconcileIsExact(once, theirs, other, KeyOf(o));
      }
    } else {
      var o, p :| o in mine && p in theirs && Prunable(o.kind) && KeyOf(o) == KeyOf(p);
      assert Desired(theirs, KeyOf(p));
      ReconcileIsExact(once, theirs, other, KeyOf(p));
    }
  }

  /** Reconciling one deployment and then another leaves the first one running exactly
      if the names of their applications are apart. */
  lemma SecondDeploymentDecides(cluster: Cluster, a: Bundle, b: Bundle, namespace: string)
    requires Accepted(a) && a.deploymentId != b.deploymentId
    ensures var mine, theirs := Rendered(a, namespace), Rendered(b, namespace);
            Runs(Reconciled(Reconciled(cluster, mine, a.deploymentId), theirs, b.deploymentId), mine, a.deploymentId)
            <==> NamesApart(a, b)
  {
    ReconcileRunsTheBundle(cluster, a, namespace);
    KeysApartExactly(a, b, namespace);
    SecondReconcileDecides(Reconciled(cluster, Rendered(a, namespace), a.deploymentId), Rendered(a, namespace),
                           a.deploymentId, Rendered(b, namespace), b.deploymentId);
  }

  /** Two accepted bundles whose applications are given one name. */
  lemma DeploymentsCanCollide()
    ensures var a, b := Bundle("a", [Minimal("b-c", "v")]), Bundle("a-b", [Minimal("c", "v")]);
            Accepted(a) && Accepted(b) && a.deploymentId != b.deploymentId && !NamesApart(a, b)
  {
    var a, b := Bundle("a", [Minimal("b-c", "v")]), Bundle("a-b", [Minimal("c", "v")]);
    assert |a.deploymentId| != |b.deploymentId|;
    MinimalIsAccepted("a", "b-c", "v");
    MinimalIsAccepted("a-b", "c", "v");
    assert ObjectName("a", a.apps[0].name) == "a-b-c" == ObjectName("a-b", b.apps[0].name);
  }

  lemma {:induction false} AppliedOverAnything(a: Cluster, b: Cluster, objects: seq<Object>, deploymentId: string, key: Key)
    requires Desired(objects, key)
    ensures key in Applied(a, objects, deploymentId) && key in Applied(b, objects, deploymentId)
    ensures Applied(a, objects, deploymentId)[key] == Applied(b, objects, deploymentId)[key]
  {
    var n := |objects| - 1;
    if KeyOf(objects[n]) != key {
      var i :| 0 <= i < |objects| && KeyOf(objects[i]) == key;
      assert KeyOf(objects[..n][i]) == key;
      AppliedOverAnything(a, b, objects[..n], deploymentId, key);
    }
  }

  /** Reconciling a second time changes nothing at all. */
  lemma ReconcileIsIdempotent(cluster: Cluster, objects: seq<Object>, deploymentId: string)
    ensures var once := Reconciled(cluster, objects, deploymentId);
            Reconciled(once, objects, deploymentId) == once
  {
    var once := Reconciled(cluster, objects, deploymentId);
    var twice := Reconciled(once, objects, deploymentId);
    forall key ensures (key in twice <==> key in once) && (key in once ==> twice[key] == once[key]) {
      AppliedAt(cluster, objects, deploymentId, key);
      AppliedAt(once, objects, deploymentId, key);
      if Desired(objects, key) {
        AppliedOverAnything(cluster, once, objects, deploymentId, key);
      }
    }
  }

  class Namespaced {
    var cluster: Cluster

    constructor (cluster: Cluster)
      ensures this.cluster == cluster
    {
      this.cluster := cluster;
    }

    /** Applies every object, then deletes what is obsolete, one observed object at a time. */
    method Reconcile(objects: seq<Object>, deploymentId: string) returns (removed: set<Key>)
      modifies this
      ensures cluster == Reconciled(old(cluster), objects, deploymentId)
      ensures forall key :: key in removed <==> Obsolete(Applied(old(cluster), objects, deploymentId), objects, deploymentId, key)
    {
      cluster := Applied(cluster, objects, deploymentId);
      removed := {};
      ghost var applied := cluster;
      var observed := set key | key in cluster && cluster[key].owner == Some(deploymentId);
      var left := observed;
      while left != {}
        invariant left <= observed <= applied.Keys
        invariant forall key :: key in removed <==> key in observed - left && Obsolete(applied, objects, deploymentId, key)
        invariant cluster == map key | key in applied && key !in removed :: applied[key]
      {
        var key :| key in left;
        left := left - {key};
        if Prunable(key.0) && !Desired(objects, key) {
          cluster := map k | k in cluster && k != key :: cluster[k];
          removed := removed + {key};
        }
      }
    }
  }
}
