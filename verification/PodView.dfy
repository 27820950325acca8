/** What the containers of a rendered pod find at their paths, in the bundle's terms
    (apexfabric/solution_management/renderer.py). */
module PodView {
  import opened Options
  import opened Bundle
  import opened Rendering

  /** A container with these mounts finds the source at the path. */
  ghost predicate Finds(volumes: seq<Volume>, mounts: seq<Mount>, path: string, source: VolumeSource, readOnly: bool) {
    exists v, m :: v in volumes && m in mounts && v.name == m.volume && m == Mount(v.name, path, readOnly) && v.source == source
  }

  function SourceOf(e: External): VolumeSource {
    match e.source
    case SecretSource(secret, _) => SecretVolume(secret)
    case ClaimSource(claim) => ClaimVolume(claim)
  }

  /** What the platform gives: the application's configuration and its secrets. */
  predicate FromPlatform(name: string, app: App, path: string, source: VolumeSource, readOnly: bool) {
    readOnly
    && ((path == "/etc/apexfabric/config" && source == ConfigMapVolume(name + "-config"))
        || (path == "/etc/apexfabric/secrets" && source == SecretVolume(name + "-secret") && app.secrets != {}))
  }

  ghost predicate FromClaim(name: string, app: App, path: string, source: VolumeSource, readOnly: bool) {
    !readOnly && exists c :: c in app.persistent && path == c.path && source == ClaimVolume(name + "-" + c.name)
  }

  ghost predicate FromExternal(app: App, path: string, source: VolumeSource, readOnly: bool) {
    exists e :: e in app.external && path == e.path && readOnly == e.readOnly && source == SourceOf(e)
  }

  /** The desired state to compile, and an empty directory for the plans. */
  predicate ForCompiler(app: App, path: string, source: VolumeSource, readOnly: bool) {
    app.compiler.Some?
    && ((path == "/plans" && source == EmptyDir && !readOnly)
        || (path == "/configs" && readOnly
            && source == match app.compiler.value
                         case FromSecretNamed(secret) => SecretVolume(secret)
                         case FromConfigMapNamed(configMap) => ConfigMapVolume(configMap)))
  }

  /** The devices of the node that the profile asks for, where the node has them. */
  predicate FromNode(app: App, path: string, source: VolumeSource, readOnly: bool) {
    && source == HostPath(path) && !readOnly
    && match app.profile
       case Standard => false
       case Metis => path == "/dev"
       case GpuNpu => path == "/dev/dri" || path == "/dev/accel"
  }

  ghost predicate Given(name: string, app: App, path: string, source: VolumeSource, readOnly: bool) {
    || FromPlatform(name, app, path, source, readOnly) || FromClaim(name, app, path, source, readOnly)
    || FromExternal(app, path, source, readOnly) || ForCompiler(app, path, source, readOnly)
    || FromNode(app, path, source, readOnly)
  }

  // ---------------------------------------------------------------- part by part

  lemma PlatformFinds(name: string, app: App, path: string, source: VolumeSource, readOnly: bool)
    requires FromPlatform(name, app, path, source, readOnly)
    ensures Finds(Volumes(name, app), Mounts(app), path, source, readOnly)
  {
    var v := if path == "/etc/apexfabric/config" then Volumes(name, app)[0] else Volumes(name, app)[1];
    var m := if path == "/etc/apexfabric/config" then PlatformMounts(app)[0] else PlatformMounts(app)[1];
    assert "/etc/apexfabric/config"[16] == 'c' && "/etc/apexfabric/secrets"[16] == 's';
    assert v in Volumes(name, app) && m in PlatformMounts(app) && m in Mounts(app);
  }

  lemma ClaimFinds(name: string, app: App, path: string, source: VolumeSource, readOnly: bool)
    requires FromClaim(name, app, path, source, readOnly)
    ensures Finds(Volumes(name, app), Mounts(app), path, source, readOnly)
  {
    var c :| c in app.persistent && path == c.path && source == ClaimVolume(name + "-" + c.name);
    var i :| 0 <= i < |app.persistent| && app.persistent[i] == c;
    var v, m := PersistentVolumes(name, app.persistent)[i], PersistentMounts(app.persistent)[i];
    assert v in PersistentVolumes(name, app.persistent) && m in PersistentMounts(app.persistent);
    assert v in Volumes(name, app) && m in Mounts(app);
  }

  lemma SourceIsRendered(e: External)
    ensures ExternalSource(e.source) == SourceOf(e)
  {
  }

  lemma ExternalFinds(name: string, app: App, path: string, source: VolumeSource, readOnly: bool)
    requires FromExternal(app, path, source, readOnly)
    ensures Finds(Volumes(name, app), Mounts(app), path, source, readOnly)
  {
    var e :| e in app.external && path == e.path && readOnly == e.readOnly && source == SourceOf(e);
    var i :| 0 <= i < |app.external| && app.external[i] == e;
    SourceIsRendered(e);
    var v, m := ExternalVolumes(app.external)[i], ExternalMounts(app.external)[i];
    assert v in ExternalVolumes(app.external) && m in ExternalMounts(app.external);
    assert v in Volumes(name, app) && m in Mounts(app);
  }

  lemma CompilerFinds(name: string, app: App, path: string, source: VolumeSource, readOnly: bool)
    requires ForCompiler(app, path, source, readOnly)
    ensures Finds(Volumes(name, app), Mounts(app), path, source, readOnly)
    ensures Finds(Volumes(name, app), CompilerMounts(app).value, path, source, readOnly)
  {
    var v := if path == "/plans" then CompilerVolumes(app)[1] else CompilerVolumes(app)[0];
    var m := if path == "/plans" then CompilerOwnMounts(app)[0] else CompilerOwnMounts(app)[1];
    assert v in CompilerVolumes(app) && m in CompilerOwnMounts(app);
    assert v in Volumes(name, app) && m in Mounts(app);
    assert CompilerMounts(app).value[if path == "/plans" then 1 else 0] == m;
  }

  lemma NodeFinds(name: string, app: App, path: string, source: VolumeSource, readOnly: bool)
    requires FromNode(app, path, source, readOnly)
    ensures Finds(Volumes(name, app), Mounts(app), path, source, readOnly)
  {
    var k := if path == "/dev/accel" then 1 else 0;
    var v, m := HostVolumes(app)[k], HostMounts(app)[k];
    assert v in HostVolumes(app) && m in HostMounts(app);
    assert v in Volumes(name, app) && m in Mounts(app);
  }

  lemma GivenIsFound(name: string, app: App, path: string, source: VolumeSource, readOnly: bool)
    requires Given(name, app, path, source, readOnly)
    ensures Finds(Volumes(name, app), Mounts(app), path, source, readOnly)
  {
    if FromPlatform(name, app, path, source, readOnly) {
      PlatformFinds(name, app, path, source, readOnly);
    } else if FromClaim(name, app, path, source, readOnly) {
      ClaimFinds(name, app, path, source, readOnly);
    } else if FromExternal(app, path, source, readOnly) {
      ExternalFinds(name, app, path, source, readOnly);
    } else if ForCompiler(app, path, source, readOnly) {
      CompilerFinds(name, app, path, source, readOnly);
    } else {
      NodeFinds(name, app, path, source, readOnly);
    }
  }

  // ---------------------------------------------------------------- and back

  /** A volume of the mount's name whose source is given at the mount's path. */
  ghost predicate GivenAt(name: string, app: App, volumes: seq<Volume>, m: Mount) {
    exists v :: v in volumes && v.name == m.volume && Given(name, app, m.path, v.source, m.readOnly)
  }

  lemma FixedMountIsGiven(name: string, app: App, m: Mount)
    requires m in PlatformMounts(app) + CompilerOwnMounts(app) + HostMounts(app)
    ensures GivenAt(name, app, Volumes(name, app), m)
  {
    var volumes := Volumes(name, app);
    if m in PlatformMounts(app) {
      var v := if m == PlatformMounts(app)[0] then volumes[0] else volumes[1];
      assert FromPlatform(name, app, m.path, v.source, m.readOnly);
    } else if m in CompilerOwnMounts(app) {
      var v := if m == CompilerOwnMounts(app)[0] then CompilerVolumes(app)[1] else CompilerVolumes(app)[0];
      assert v in CompilerVolumes(app) && v in volumes && ForCompiler(app, m.path, v.source, m.readOnly);
    } else {
      var v := if m == HostMounts(app)[0] then HostVolumes(app)[0] else HostVolumes(app)[1];
      assert v in HostVolumes(app) && v in volumes && FromNode(app, m.path, v.source, m.readOnly);
    }
  }

  lemma OwnMountIsGiven(name: string, app: App, m: Mount)
    requires m in PersistentMounts(app.persistent) || m in ExternalMounts(app.external)
    ensures GivenAt(name, app, Volumes(name, app), m)
  {
    if m in PersistentMounts(app.persistent) {
      var i :| 0 <= i < |app.persistent| && PersistentMounts(app.persistent)[i] == m;
      var v := PersistentVolumes(name, app.persistent)[i];
      assert app.persistent[i] in app.persistent;
      assert v in PersistentVolumes(name, app.persistent) && v in Volumes(name, app);
      assert FromClaim(name, app, m.path, v.source, m.readOnly);
    } else {
      var i :| 0 <= i < |app.external| && ExternalMounts(app.external)[i] == m;
      var v := ExternalVolumes(app.external)[i];
      SourceIsRendered(app.external[i]);
      assert app.external[i] in app.external;
      assert v in ExternalVolumes(app.external) && v in Volumes(name, app);
      assert FromExternal(app, m.path, v.source, m.readOnly);
    }
  }

  lemma MountIsGiven(name: string, app: App, m: Mount)
    requires m in Mounts(app)
    ensures GivenAt(name, app, Volumes(name, app), m)
  {
    if m in PersistentMounts(app.persistent) || m in ExternalMounts(app.external) {
      OwnMountIsGiven(name, app, m);
    } else {
      FixedMountIsGiven(name, app, m);
    }
  }

  lemma SameNameSameVolume(volumes: seq<Volume>, v: Volume, w: Volume)
    requires NoDuplicates(VolumeNames(volumes)) && v in volumes && w in volumes && v.name == w.name
    ensures v == w
  {
    var i :| 0 <= i < |volumes| && volumes[i] == v;
    var j :| 0 <= j < |volumes| && volumes[j] == w;
    assert VolumeNames(volumes)[i] == VolumeNames(volumes)[j];
  }

  lemma OneVolumeOfAName(deploymentId: string, app: App, v: Volume, w: Volume)
    requires AppAccepted(deploymentId, app)
    requires v in Volumes(ObjectName(deploymentId, app.name), app) && w in Volumes(ObjectName(deploymentId, app.name), app)
    requires v.name == w.name
    ensures v == w
  {
    VolumeNamesDistinct(deploymentId, app);
    SameNameSameVolume(Volumes(ObjectName(deploymentId, app.name), app), v, w);
  }

  lemma FoundIsGiven(deploymentId: string, app: App, path: string, source: VolumeSource, readOnly: bool)
    requires AppAccepted(deploymentId, app)
    requires Finds(Volumes(ObjectName(deploymentId, app.name), app), Mounts(app), path, source, readOnly)
    ensures Given(ObjectName(deploymentId, app.name), app, path, source, readOnly)
  {
    var name := ObjectName(deploymentId, app.name);
    var v, m :| v in Volumes(name, app) && m in Mounts(app) && v.name == m.volume && m == Mount(v.name, path, readOnly)
                && v.source == source;
    MountIsGiven(name, app, m);
    var w :| w in Volumes(name, app) && w.name == m.volume && Given(name, app, m.path, w.source, m.readOnly);
    OneVolumeOfAName(deploymentId, app, v, w);
  }

  /** The main container of an accepted application finds exactly what the platform, the
      application's claims and external mounts, the plan compiler and the profile give. */
  lemma ContainerFindsExactly(deploymentId: string, app: App, path: string, source: VolumeSource, readOnly: bool)
    requires AppAccepted(deploymentId, app)
    ensures var pod := PodOf(ObjectName(deploymentId, app.name), app);
            Finds(pod.volumes, pod.mounts, path, source, readOnly)
            <==> Given(ObjectName(deploymentId, app.name), app, path, source, readOnly)
  {
    var name := ObjectName(deploymentId, app.name);
    if Finds(Volumes(name, app), Mounts(app), path, source, readOnly) {
      FoundIsGiven(deploymentId, app, path, source, readOnly);
    }
    if Given(name, app, path, source, readOnly) {
      GivenIsFound(name, app, path, source, readOnly);
    }
  }

  // ---------------------------------------------------------------- the plan compiler

  lemma {:induction false} SharedAre(ms: seq<Mount>, m: Mount)
    ensures m in SharedMounts(ms) <==> m in ms && SharedWithCompiler(m)
  {
    if ms != [] {
      SharedAre(ms[..|ms| - 1], m);
      assert ms == ms[..|ms| - 1] + [ms[|ms| - 1]];
    }
  }

  /** Models, run-time secrets and the two device directories. */
  predicate SharedPath(path: string) {
    || (|path| >= 8 && path[..8] == "/models/")
    || (|path| >= 24 && path[..24] == "/run/secrets/apexfabric/")
    || path == "/dev/dri" || path == "/dev/accel"
  }

  lemma OwnMountsFind(deploymentId: string, app: App, v: Volume, m: Mount)
    requires AppAccepted(deploymentId, app) && v in Volumes(ObjectName(deploymentId, app.name), app)
    requires m in CompilerOwnMounts(app) && v.name == m.volume
    ensures ForCompiler(app, m.path, v.source, m.readOnly)
  {
    var w := if m == CompilerOwnMounts(app)[0] then CompilerVolumes(app)[1] else CompilerVolumes(app)[0];
    assert w in CompilerVolumes(app) && w in Volumes(ObjectName(deploymentId, app.name), app);
    OneVolumeOfAName(deploymentId, app, v, w);
  }

  lemma SharedMountsFind(deploymentId: string, app: App, v: Volume, m: Mount)
    requires AppAccepted(deploymentId, app) && v in Volumes(ObjectName(deploymentId, app.name), app)
    requires m in SharedMounts(Mounts(app)) && v.name == m.volume
    ensures Given(ObjectName(deploymentId, app.name), app, m.path, v.source, m.readOnly) && SharedPath(m.path)
  {
    SharedAre(Mounts(app), m);
    SharedPathsAre(m);
    assert Finds(Volumes(ObjectName(deploymentId, app.name), app), Mounts(app), m.path, v.source, m.readOnly);
    FoundIsGiven(deploymentId, app, m.path, v.source, m.readOnly);
  }

  lemma SharedPathsAre(m: Mount)
    ensures SharedWithCompiler(m) <==> SharedPath(m.path)
  {
  }

  lemma CompilerMountsAre(app: App, m: Mount)
    requires app.compiler.Some?
    ensures m in CompilerMounts(app).value <==> m in CompilerOwnMounts(app) || m in SharedMounts(Mounts(app))
  {
    var own := [Mount("desired-state", "/configs", true), Mount("compiled-plans", "/plans", false)];
    assert m in own <==> m in CompilerOwnMounts(app);
    assert CompilerMounts(app).value == own + SharedMounts(Mounts(app));
  }

  lemma SharedIsFound(name: string, app: App, path: string, source: VolumeSource, readOnly: bool)
    requires app.compiler.Some? && Given(name, app, path, source, readOnly) && SharedPath(path)
    ensures Finds(Volumes(name, app), CompilerMounts(app).value, path, source, readOnly)
  {
    GivenIsFound(name, app, path, source, readOnly);
    var v, m :| v in Volumes(name, app) && m in Mounts(app) && v.name == m.volume && m == Mount(v.name, path, readOnly)
                && v.source == source;
    SharedPathsAre(m);
    SharedAre(Mounts(app), m);
    CompilerMountsAre(app, m);
  }

  /** The plan compiler finds its input and its output directory, and of what the main
      container finds exactly what lies under a shared path. */
  lemma CompilerFindsExactly(deploymentId: string, app: App, path: string, source: VolumeSource, readOnly: bool)
    requires AppAccepted(deploymentId, app) && app.compiler.Some?
    ensures var name := ObjectName(deploymentId, app.name);
            Finds(Volumes(name, app), CompilerMounts(app).value, path, source, readOnly)
            <==> ForCompiler(app, path, source, readOnly)
                 || (Given(name, app, path, source, readOnly) && SharedPath(path))
  {
    var name := ObjectName(deploymentId, app.name);
    if v, m :| v in Volumes(name, app) && m in CompilerMounts(app).value && v.name == m.volume
               && m == Mount(v.name, path, readOnly) && v.source == source {
      CompilerMountsAre(app, m);
      if m in CompilerOwnMounts(app) {
        OwnMountsFind(deploymentId, app, v, m);
      } else {
        SharedMountsFind(deploymentId, app, v, m);
      }
    }
    if ForCompiler(app, path, source, readOnly) {
      CompilerFinds(name, app, path, source, readOnly);
    } else if Given(name, app, path, source, readOnly) && SharedPath(path) {
      SharedIsFound(name, app, path, source, readOnly);
    }
  }

  // ---------------------------------------------------------------- objects, probes and variables

  ghost predicate Renders(deploymentId: string, app: App, kind: Kind) {
    exists o :: o in AppObjects(deploymentId, app) && o.kind == kind
  }

  predicate Calls(app: App, kind: Kind) {
    match kind
    case ConfigMap => true
    case Deployment => true
    case Secret => app.secrets != {}
    case PersistentVolumeClaim => app.persistent != []
    case Service => app.ports != []
    case NetworkPolicy => app.ports != []
    case Namespace => false
  }

  lemma RenderedIsCalled(deploymentId: string, app: App, o: Object)
    requires o in AppObjects(deploymentId, app)
    ensures Calls(app, o.kind)
  {
    var name := ObjectName(deploymentId, app.name);
    if o in Claims(name, app.persistent) {
      assert |Claims(name, app.persistent)| > 0;
    }
  }

  lemma CalledIsRendered(deploymentId: string, app: App, kind: Kind) returns (o: Object)
    requires Calls(app, kind)
    ensures o in AppObjects(deploymentId, app) && o.kind == kind
  {
    var name := ObjectName(deploymentId, app.name);
    match kind {
      case ConfigMap => o := ConfigObjects(name, app)[0]; assert o in ConfigObjects(name, app);
      case Secret => o := ConfigObjects(name, app)[1]; assert o in ConfigObjects(name, app);
      case PersistentVolumeClaim => o := Claims(name, app.persistent)[0]; assert o in Claims(name, app.persistent);
      case Deployment => o := Object(Deployment, name, Workload(PodOf(name, app)));
      case Service => o := NetworkObjects(name, app)[0]; assert o in NetworkObjects(name, app);
      case NetworkPolicy => o := NetworkObjects(name, app)[1]; assert o in NetworkObjects(name, app);
    }
  }

  /** Which kinds of object an application is rendered into: it gets a secret if it has
      secrets, claims if it claims volumes, and a service and a network policy if it
      listens on a port. */
  lemma KindsRendered(deploymentId: string, app: App, kind: Kind)
    ensures Renders(deploymentId, app, kind) <==> Calls(app, kind)
  {
    if o :| o in AppObjects(deploymentId, app) && o.kind == kind {
      RenderedIsCalled(deploymentId, app, o);
    }
    if Calls(app, kind) {
      var o := CalledIsRendered(deploymentId, app, kind);
    }
  }

  /** Readiness, liveness and startup are probed at the ports the bundle says, and each secret
      variable is read from its key in the application's own secret. */
  lemma ProbesAndVariables(deploymentId: string, app: App, variable: string, secret: string, key: string)
    requires AppAccepted(deploymentId, app)
    ensures var pod := PodOf(ObjectName(deploymentId, app.name), app);
            && app.startup.Some? && pod.probes == [app.readiness, app.liveness, app.startup.value]
            && (SecretRef(variable, secret, key) in pod.secretRefs <==>
                  && variable in app.secretEnvironment && app.secretEnvironment[variable] == key
                  && secret == deploymentId + "-" + app.name + "-secret")
  {
    assert !Broken(deploymentId, app, UnknownProbePort);
  }

  // ---------------------------------------------------------------- what an accepted application can rely on

  ghost predicate FindsSomething(deploymentId: string, app: App, path: string) {
    exists source, readOnly ::
      Finds(Volumes(ObjectName(deploymentId, app.name), app), Mounts(app), path, source, readOnly)
  }

  lemma OwnPathIsFound(deploymentId: string, app: App, path: string)
    requires path in OwnPaths(app)
    ensures FindsSomething(deploymentId, app, path)
  {
    var name, n := ObjectName(deploymentId, app.name), |ClaimedPaths(app.persistent)|;
    var k :| 0 <= k < |OwnPaths(app)| && OwnPaths(app)[k] == path;
    if k < n {
      var c := app.persistent[k];
      assert c in app.persistent && FromClaim(name, app, path, ClaimVolume(name + "-" + c.name), false);
      ClaimFinds(name, app, path, ClaimVolume(name + "-" + c.name), false);
    } else {
      var e := app.external[k - n];
      assert e in app.external && FromExternal(app, path, SourceOf(e), e.readOnly);
      ExternalFinds(name, app, path, SourceOf(e), e.readOnly);
    }
  }

  /** An accepted application that asks for an accelerator is built for the machine that has
      it, asks for at least one device or stream, and with the Metis profile finds its data
      directory; its ports differ in name and in number, and with a plan compiler nothing of
      its own lies under the plans. */
  lemma AcceptedIsEquipped(deploymentId: string, app: App)
    requires AppAccepted(deploymentId, app)
    ensures app.profile.Metis? ==> app.amd64 && app.metisDevices >= 1 && FindsSomething(deploymentId, app, "/data")
    ensures app.profile.GpuNpu? ==> app.amd64 && app.cameraStreams >= 1
    ensures forall i, j :: 0 <= i < j < |app.ports| ==>
              app.ports[i].name != app.ports[j].name && app.ports[i].number != app.ports[j].number
    ensures app.compiler.Some? ==> forall path :: path in OwnPaths(app) ==>
              path != "/plans" && !(|path| >= 7 && path[..7] == "/plans/")
  {
    assert !Broken(deploymentId, app, MetisArchitecture) && !Broken(deploymentId, app, MetisDevices);
    assert !Broken(deploymentId, app, MetisData) && !Broken(deploymentId, app, GpuArchitecture);
    assert !Broken(deploymentId, app, GpuStreams) && !Broken(deploymentId, app, PlansTaken);
    assert !Broken(deploymentId, app, DuplicatePortName) && !Broken(deploymentId, app, DuplicatePortNumber);
    if app.profile.Metis? {
      OwnPathIsFound(deploymentId, app, "/data");
    }
  }

  /** And one with a camera contract places itself by camera labels exactly as the contract
      says: with node locality it requires them, without it only an application without
      cameras may. */
  lemma PlacedByItsCameras(deploymentId: string, app: App)
    requires AppAccepted(deploymentId, app) && app.hasCameraContract
    ensures app.nodeLocality ==> app.requiresCameraLabels
    ensures !app.nodeLocality && app.cameras != {} ==> !app.requiresCameraLabels
  {
    assert !Broken(deploymentId, app, LocalityWithoutLabels) && !Broken(deploymentId, app, ConnectivityWithLabels);
  }
}
