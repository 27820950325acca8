/** Deployment bundles and the rules a bundle is accepted by
    (apexfabric/solution_management/validation.py,
    solution-packs/schema/deployment-bundle.schema.json). */
module Bundle {
  import opened Options

  datatype Port = Port(name: string, number: nat)
  datatype Claimed = Claimed(name: string, path: string)
  datatype Source = SecretSource(secret: string, key: string) | ClaimSource(claim: string)
  datatype External = External(name: string, path: string, readOnly: bool, source: Source)
  datatype Metrics = Metrics(port: string, prometheus: bool)
  datatype Profile = Standard | Metis | GpuNpu
  datatype DesiredState = FromSecretNamed(secret: string) | FromConfigMapNamed(configMap: string)

  datatype App = App(
    name: string, ports: seq<Port>,
    readiness: string, liveness: string, startup: Option<string>,
    metrics: Option<Metrics>, events: Option<string>,
    persistent: seq<Claimed>, external: seq<External>, compiler: Option<DesiredState>,
    profile: Profile, amd64: bool, metisDevices: nat, cameraStreams: nat,
    cameras: set<string>, hasCameraContract: bool, nodeLocality: bool, requiresCameraLabels: bool,
    secrets: set<string>, secretEnvironment: map<string, string>, environment: set<string>)

  datatype Bundle = Bundle(deploymentId: string, apps: seq<App>)

  ghost predicate NoDuplicates<T>(s: seq<T>) {
    forall i, j :: 0 <= i < j < |s| ==> s[i] != s[j]
  }

  function ClaimedPaths(volumes: seq<Claimed>): (r: seq<string>)
    ensures |r| == |volumes| && forall i :: 0 <= i < |r| ==> r[i] == volumes[i].path
  {
    seq(|volumes|, i requires 0 <= i < |volumes| => volumes[i].path)
  }

  function ExternalPaths(mounts: seq<External>): (r: seq<string>)
    ensures |r| == |mounts| && forall i :: 0 <= i < |r| ==> r[i] == mounts[i].path
  {
    seq(|mounts|, i requires 0 <= i < |mounts| => mounts[i].path)
  }

  /** The paths the application itself chose. */
  function OwnPaths(app: App): seq<string> {
    ClaimedPaths(app.persistent) + ExternalPaths(app.external)
  }

  const ConfigPath := "/etc/apexfabric/config"
  const SecretsPath := "/etc/apexfabric/secrets"
  const PlatformPaths: set<string> := {"/dev", ConfigPath, SecretsPath}
  const Reserved: set<string> := {
    "POD_NAME", "POD_NAMESPACE", "NODE_NAME", "APPLICATION_VERSION", "APEXFABRIC_DEPLOYMENT_REVISION",
    "APEXFABRIC_DEPLOYMENT_ID", "APEXFABRIC_SOLUTION_ID", "APEXFABRIC_APPLICATION"}

  function ObjectName(deploymentId: string, app: string): string {
    deploymentId + "-" + app
  }

  datatype Rule =
    | LongName | DuplicatePortName | DuplicatePortNumber | UnknownProbePort | UnknownTelemetryPort
    | DuplicateVolumeName | DuplicateVolumePath | LongClaimName | VolumeOnPlatformPath
    | DuplicateExternalName | DuplicateExternalPath | ExternalConflict | ExternalOnPlatformPath | WritableSecret
    | LocalityWithoutLabels | ConnectivityWithLabels
    | MetisArchitecture | MetisDevices | MetisData | GpuArchitecture | GpuStreams
    | PlansTaken | UnknownSecret | ReservedEnvironment

  predicate PortDeclared(ports: seq<Port>, name: string) {
    exists i :: 0 <= i < |ports| && ports[i].name == name
  }

  /** What each rule forbids in one application. A missing startup probe is looked up
      like a declared one that names no port. */
  predicate Broken(deploymentId: string, app: App, rule: Rule) {
    match rule
    case LongName => |ObjectName(deploymentId, app.name)| > 63
    case DuplicatePortName => exists i, j :: 0 <= i < j < |app.ports| && app.ports[i].name == app.ports[j].name
    case DuplicatePortNumber => exists i, j :: 0 <= i < j < |app.ports| && app.ports[i].number == app.ports[j].number
    case UnknownProbePort =>
      || !PortDeclared(app.ports, app.readiness) || !PortDeclared(app.ports, app.liveness)
      || app.startup.None? || !PortDeclared(app.ports, app.startup.value)
    case UnknownTelemetryPort =>
      || (app.metrics.Some? && !PortDeclared(app.ports, app.metrics.value.port))
      || (app.events.Some? && !PortDeclared(app.ports, app.events.value))
    case DuplicateVolumeName =>
      exists i, j :: 0 <= i < j < |app.persistent| && app.persistent[i].name == app.persistent[j].name
    case DuplicateVolumePath =>
      exists i, j :: 0 <= i < j < |app.persistent| && app.persistent[i].path == app.persistent[j].path
    case LongClaimName =>
      exists i :: 0 <= i < |app.persistent| && |ObjectName(deploymentId, app.name) + "-" + app.persistent[i].name| > 63
    case VolumeOnPlatformPath => exists i :: 0 <= i < |app.persistent| && app.persistent[i].path in PlatformPaths
    case DuplicateExternalName =>
      exists i, j :: 0 <= i < j < |app.external| && app.external[i].name == app.external[j].name
    case DuplicateExternalPath =>
      exists i, j :: 0 <= i < j < |app.external| && app.external[i].path == app.external[j].path
    case ExternalConflict =>
      exists i, j :: 0 <= i < |app.external| && 0 <= j < |app.persistent|
        && (app.external[i].path == app.persistent[j].path || app.external[i].name == app.persistent[j].name)
    case ExternalOnPlatformPath => exists i :: 0 <= i < |app.external| && app.external[i].path in PlatformPaths
    case WritableSecret => exists i :: 0 <= i < |app.external| && app.external[i].source.SecretSource? && !app.external[i].readOnly
    case LocalityWithoutLabels => app.hasCameraContract && app.nodeLocality && !app.requiresCameraLabels
    case ConnectivityWithLabels => app.hasCameraContract && !app.nodeLocality && app.requiresCameraLabels && app.cameras != {}
    case MetisArchitecture => app.profile.Metis? && !app.amd64
    case MetisDevices => app.profile.Metis? && app.metisDevices < 1
    case MetisData => app.profile.Metis? && "/data" !in OwnPaths(app)
    case GpuArchitecture => app.profile.GpuNpu? && !app.amd64
    case GpuStreams => app.profile.GpuNpu? && app.cameraStreams < 1
    case PlansTaken =>
      app.compiler.Some?
      && exists path :: path in OwnPaths(app) && (path == "/plans" || "/plans/" <= path)
    case UnknownSecret => exists e :: e in app.secretEnvironment && app.secretEnvironment[e] !in app.secrets
    case ReservedEnvironment => (app.environment + app.secretEnvironment.Keys) * Reserved != {}
  }

  ghost predicate AppAccepted(deploymentId: string, app: App) {
    forall rule: Rule :: !Broken(deploymentId, app, rule)
  }

  ghost predicate Accepted(b: Bundle) {
    && (forall i, j :: 0 <= i < j < |b.apps| ==> b.apps[i].name != b.apps[j].name)
    && (forall i :: 0 <= i < |b.apps| ==> AppAccepted(b.deploymentId, b.apps[i]))
  }

  /** The same application with its liveness probe as startup probe where it has none. */
  function WithStartup(app: App): App {
    if app.startup.Some? then app else app.(startup := Some(app.liveness))
  }

  function WithStartups(apps: seq<App>): (r: seq<App>)
    ensures |r| == |apps| && forall i :: 0 <= i < |r| ==> r[i] == WithStartup(apps[i])
  {
    seq(|apps|, i requires 0 <= i < |apps| => WithStartup(apps[i]))
  }

  lemma OtherRulesIgnoreStartup(deploymentId: string, app: App, startup: Option<string>, rule: Rule)
    requires rule != UnknownProbePort
    ensures Broken(deploymentId, app, rule) <==> Broken(deploymentId, app.(startup := startup), rule)
  {
    assert OwnPaths(app) == OwnPaths(app.(startup := startup));
  }

  /** The schema lets an application leave its startup probe out, the validator does
      not: adding the probe repairs exactly that rule, and a bundle is accepted exactly
      if it would be with the probes added and none of them had to be. */
  lemma StartupProbesDecide(b: Bundle)
    ensures var filled := WithStartups(b.apps);
            && (forall i, rule: Rule :: 0 <= i < |b.apps| ==>
                  (Broken(b.deploymentId, b.apps[i], rule) <==>
                     Broken(b.deploymentId, filled[i], rule) || (rule.UnknownProbePort? && b.apps[i].startup.None?)))
            && (Accepted(b) <==> Accepted(b.(apps := filled)) && forall i :: 0 <= i < |b.apps| ==> b.apps[i].startup.Some?)
  {
    var filled := WithStartups(b.apps);
    forall i, rule: Rule | 0 <= i < |b.apps|
      ensures Broken(b.deploymentId, b.apps[i], rule) <==>
                Broken(b.deploymentId, filled[i], rule) || (rule.UnknownProbePort? && b.apps[i].startup.None?)
    {
      if rule != UnknownProbePort && b.apps[i].startup.None? {
        OtherRulesIgnoreStartup(b.deploymentId, b.apps[i], filled[i].startup, rule);
      }
    }
    forall i | 0 <= i < |b.apps|
      ensures filled[i].name == b.apps[i].name
      ensures AppAccepted(b.deploymentId, b.apps[i])
              <==> b.apps[i].startup.Some? && AppAccepted(b.deploymentId, filled[i])
    {
      if b.apps[i].startup.None? {
        assert Broken(b.deploymentId, b.apps[i], UnknownProbePort);
      }
    }
  }

  // ---------------------------------------------------------------- the validator

  datatype Problem = DuplicateApplication(name: string) | InApplication(index: nat, rule: Rule)

  function AppProblems(deploymentId: string, app: App, index: nat): (r: set<Problem>)
    ensures forall p :: p in r <==> p.InApplication? && p.index == index && Broken(deploymentId, app, p.rule)
  {
    set rule: Rule | Broken(deploymentId, app, rule) :: InApplication(index, rule)
  }

  ghost predicate Repeats(apps: seq<App>, name: string) {
    exists i, j :: 0 <= i < j < |apps| && apps[i].name == apps[j].name == name
  }

  /** Every broken rule of every application is reported, and every repeated name, and
      nothing else; so nothing is reported exactly for accepted bundles. */
  method SemanticErrors(b: Bundle) returns (problems: set<Problem>)
    ensures forall p :: p in problems && p.InApplication?
              <==> p.InApplication? && p.index < |b.apps| && Broken(b.deploymentId, b.apps[p.index], p.rule)
    ensures forall p :: p in problems && p.DuplicateApplication? <==> p.DuplicateApplication? && Repeats(b.apps, p.name)
    ensures problems == {} <==> Accepted(b)
  {
    var names := DuplicateNames(b.apps);
    var rules: set<Problem> := {};
    var k := 0;
    while k < |b.apps|
      invariant 0 <= k <= |b.apps|
      invariant forall p :: p in rules
                  <==> p.InApplication? && p.index < k && Broken(b.deploymentId, b.apps[p.index], p.rule)
    {
      rules := rules + AppProblems(b.deploymentId, b.apps[k], k);
      k := k + 1;
    }
    problems := names + rules;
    NoProblems(b, names, rules);
  }

  lemma NoProblems(b: Bundle, names: set<Problem>, rules: set<Problem>)
    requires forall p :: p in names <==> p.DuplicateApplication? && Repeats(b.apps, p.name)
    requires forall p :: p in rules
               <==> p.InApplication? && p.index < |b.apps| && Broken(b.deploymentId, b.apps[p.index], p.rule)
    ensures names + rules == {} <==> Accepted(b)
  {
    if names + rules == {} {
      forall i, j | 0 <= i < j < |b.apps| ensures b.apps[i].name != b.apps[j].name {
        assert b.apps[i].name == b.apps[j].name ==> Repeats(b.apps, b.apps[i].name);
        assert DuplicateApplication(b.apps[i].name) !in names;
      }
      forall i, rule: Rule | 0 <= i < |b.apps| ensures !Broken(b.deploymentId, b.apps[i], rule) {
        assert InApplication(i, rule) !in rules;
      }
    }
  }

  method DuplicateNames(apps: seq<App>) returns (problems: set<Problem>)
    ensures forall p :: p in problems <==> p.DuplicateApplication? && Repeats(apps, p.name)
  {
    problems := {};
    var j := 0;
    while j < |apps|
      invariant 0 <= j <= |apps|
      invariant forall p :: p in problems <==> p.DuplicateApplication? && Repeats(apps[..j], p.name)
    {
      assert forall i :: 0 <= i < j ==> apps[..j + 1][i] == apps[..j][i] == apps[i];
      if exists i :: 0 <= i < j && apps[i].name == apps[j].name {
        problems := problems + {DuplicateApplication(apps[j].name)};
      }
      j := j + 1;
    }
    assert apps[..j] == apps;
  }
}
