/** One deployment's append-only ledger of numbered assignment sets, the
    preview/commit compare-and-swap in front of it and the synchronization
    lease behind it (tvt_edge/service.py, tvt_edge/cluster/sync.py).

    A set's identifier is its position in `sets`; its revision is a field that
    is copied from the deployment's counter when the set is created. */
module Ledger {
  import opened Options
  import opened CameraConfig

  type CameraId = string

  /** One camera of an assignment request. */
  datatype Item = Item(camera: CameraId, apps: seq<string>, fps: int, config: Config)

  /** One camera of a stored set; every application row carries its own configuration. */
  datatype AppRow = AppRow(useCase: string, config: Config)
  datatype CameraRow = CameraRow(
    camera: CameraId, fps: int, credential: Option<nat>, geometryRevision: nat, apps: seq<AppRow>)

  /** Idempotency keys, by the prefix that keeps their families apart. */
  datatype Key =
    | Activate(session: nat)
    | Restore(session: nat)
    | Geometry(camera: CameraId, revision: nat)
    | Credential(request: string)
    | Lifecycle(request: string)
    | Operator(request: string)

  datatype Intent = Running | Stopped

  datatype AssignmentSet = AssignmentSet(
    revision: int, key: Key, settings: nat, intent: Intent, rows: seq<CameraRow>)

  datatype Phase = Pending | Applying | Applied | Failed | OperatorRequired

  /** `claims[t]` is the set that the worker holding lease `t` is applying. */
  datatype Deployment = Deployment(
    next: int, intent: Intent, sets: seq<AssignmentSet>,
    desired: Option<nat>, applied: Option<nat>, phase: Phase,
    token: Option<nat>, claims: seq<nat>)

  datatype Camera = Camera(enabled: bool, credential: Option<nat>, geometryRevision: nat)

  const NewDeployment := Deployment(1, Running, [], None, None, Pending, None, [])

  // ---------------------------------------------------------------- rows and items

  function RowOf(rows: seq<CameraRow>, camera: CameraId): Option<CameraRow> {
    if rows == [] then None
    else if rows[0].camera == camera then Some(rows[0])
    else RowOf(rows[1..], camera)
  }

  function ItemOf(items: seq<Item>, camera: CameraId): Option<Item> {
    if items == [] then None
    else if items[0].camera == camera then Some(items[0])
    else ItemOf(items[1..], camera)
  }

  function UseCases(apps: seq<AppRow>): seq<string> {
    if apps == [] then [] else [apps[0].useCase] + UseCases(apps[1..])
  }

  function AppRows(apps: seq<string>, config: Config): seq<AppRow> {
    if apps == [] then [] else [AppRow(apps[0], config)] + AppRows(apps[1..], config)
  }

  /** A stored row read back as a request item: the first application's configuration stands for all. */
  function ItemOfRow(row: CameraRow): Item {
    Item(row.camera, UseCases(row.apps), row.fps, if row.apps == [] then map[] else row.apps[0].config)
  }

  function ItemsOf(rows: seq<CameraRow>): seq<Item> {
    if rows == [] then [] else [ItemOfRow(rows[0])] + ItemsOf(rows[1..])
  }

  function RowFrom(item: Item, cameras: map<CameraId, Camera>): CameraRow {
    var camera := if item.camera in cameras then cameras[item.camera] else Camera(false, None, 0);
    CameraRow(item.camera, item.fps, camera.credential, camera.geometryRevision, AppRows(item.apps, item.config))
  }

  function RowsFrom(items: seq<Item>, cameras: map<CameraId, Camera>): seq<CameraRow> {
    if items == [] then [] else [RowFrom(items[0], cameras)] + RowsFrom(items[1..], cameras)
  }

  /** The request that gives one camera new applications, rate and configuration. */
  function Substitute(items: seq<Item>, target: Item): seq<Item> {
    if items == [] then []
    else [if items[0].camera == target.camera then target else items[0]] + Substitute(items[1..], target)
  }

  datatype Overrides = Overrides(
    credentials: map<CameraId, Option<nat>>, configs: map<CameraId, Config>, geometry: map<CameraId, nat>)

  const NoOverrides := Overrides(map[], map[], map[])

  function Reconfigured(apps: seq<AppRow>, config: Config): seq<AppRow> {
    AppRows(UseCases(apps), config)
  }

  function CloneRow(row: CameraRow, over: Overrides): CameraRow {
    CameraRow(
      row.camera,
      row.fps,
      if row.camera in over.credentials then over.credentials[row.camera] else row.credential,
      if row.camera in over.geometry then over.geometry[row.camera] else row.geometryRevision,
      if row.camera in over.configs then Reconfigured(row.apps, over.configs[row.camera]) else row.apps)
  }

  function CloneRows(rows: seq<CameraRow>, over: Overrides): seq<CameraRow> {
    if rows == [] then [] else [CloneRow(rows[0], over)] + CloneRows(rows[1..], over)
  }

  /** Every application row of the camera carries the same configuration. */
  ghost predicate Uniform(row: CameraRow) {
    row.apps != [] && forall i :: 0 <= i < |row.apps| ==> row.apps[i].config == row.apps[0].config
  }

  ghost predicate DistinctCameras(rows: seq<CameraRow>) {
    forall i, j :: 0 <= i < j < |rows| ==> rows[i].camera != rows[j].camera
  }

  ghost predicate ValidRows(rows: seq<CameraRow>) {
    DistinctCameras(rows) && forall i :: 0 <= i < |rows| ==> Uniform(rows[i]) && 1 <= rows[i].fps <= 120
  }

  /** The set gives the item's camera exactly the item's applications, rate and configuration. */
  ghost predicate Gives(set_: AssignmentSet, item: Item) {
    match RowOf(set_.rows, item.camera)
    case Some(row) => Uniform(row) && ItemOfRow(row) == item
    case None => false
  }

  lemma {:induction false} AppRowsAre(apps: seq<string>, config: Config)
    ensures |AppRows(apps, config)| == |apps| && UseCases(AppRows(apps, config)) == apps
    ensures forall i :: 0 <= i < |apps| ==> AppRows(apps, config)[i].config == config
  {
    if apps != [] {
      AppRowsAre(apps[1..], config);
      assert AppRows(apps, config)[1..] == AppRows(apps[1..], config);
    }
  }

  lemma {:induction false} UseCasesAre(apps: seq<AppRow>)
    ensures |UseCases(apps)| == |apps|
  {
    if apps != [] {
      UseCasesAre(apps[1..]);
    }
  }

  lemma {:induction false} RowOfIsListed(rows: seq<CameraRow>, camera: CameraId)
    ensures RowOf(rows, camera).Some? ==> RowOf(rows, camera).value in rows && RowOf(rows, camera).value.camera == camera
    ensures RowOf(rows, camera).None? ==> forall i :: 0 <= i < |rows| ==> rows[i].camera != camera
  {
    if rows != [] {
      RowOfIsListed(rows[1..], camera);
    }
  }

  lemma {:induction false} ItemsReadBack(rows: seq<CameraRow>, camera: CameraId)
    ensures |ItemsOf(rows)| == |rows|
    ensures forall i :: 0 <= i < |rows| ==> ItemsOf(rows)[i] == ItemOfRow(rows[i])
    ensures ItemOf(ItemsOf(rows), camera) ==
            match RowOf(rows, camera) case Some(row) => Some(ItemOfRow(row)) case None => None
  {
    if rows != [] {
      ItemsReadBack(rows[1..], camera);
      assert ItemsOf(rows)[1..] == ItemsOf(rows[1..]);
    }
  }

  lemma {:induction false} RowsHold(items: seq<Item>, cameras: map<CameraId, Camera>, camera: CameraId)
    ensures |RowsFrom(items, cameras)| == |items|
    ensures forall i :: 0 <= i < |items| ==> RowsFrom(items, cameras)[i] == RowFrom(items[i], cameras)
    ensures RowOf(RowsFrom(items, cameras), camera) ==
            match ItemOf(items, camera) case Some(item) => Some(RowFrom(item, cameras)) case None => None
  {
    if items != [] {
      RowsHold(items[1..], cameras, camera);
      assert RowsFrom(items, cameras)[1..] == RowsFrom(items[1..], cameras);
    }
  }

  lemma {:induction false} SubstituteIs(items: seq<Item>, target: Item, camera: CameraId)
    ensures |Substitute(items, target)| == |items|
    ensures forall i :: 0 <= i < |items| ==>
              Substitute(items, target)[i] == if items[i].camera == target.camera then target else items[i]
    ensures ItemOf(Substitute(items, target), camera) ==
            if camera == target.camera && ItemOf(items, camera).Some? then Some(target) else ItemOf(items, camera)
  {
    if items != [] {
      SubstituteIs(items[1..], target, camera);
      assert Substitute(items, target)[1..] == Substitute(items[1..], target);
    }
  }

  lemma {:induction false} CloneHolds(rows: seq<CameraRow>, over: Overrides, camera: CameraId)
    ensures |CloneRows(rows, over)| == |rows|
    ensures forall i :: 0 <= i < |rows| ==> CloneRows(rows, over)[i] == CloneRow(rows[i], over)
    ensures RowOf(CloneRows(rows, over), camera) ==
            match RowOf(rows, camera) case Some(row) => Some(CloneRow(row, over)) case None => None
  {
    if rows != [] {
      CloneHolds(rows[1..], over, camera);
      assert CloneRows(rows, over)[1..] == CloneRows(rows[1..], over);
    }
  }

  /** A clone keeps each camera's applications and rate, and its configuration unless that is overridden. */
  lemma CloneRowKeeps(row: CameraRow, over: Overrides)
    requires Uniform(row)
    ensures Uniform(CloneRow(row, over))
    ensures ItemOfRow(CloneRow(row, over)) ==
            if row.camera in over.configs then ItemOfRow(row).(config := over.configs[row.camera]) else ItemOfRow(row)
  {
    UseCasesAre(row.apps);
    if row.camera in over.configs {
      AppRowsAre(UseCases(row.apps), over.configs[row.camera]);
    }
  }

  lemma CloneKeepsValid(rows: seq<CameraRow>, over: Overrides)
    requires ValidRows(rows)
    ensures ValidRows(CloneRows(rows, over))
  {
    CloneHolds(rows, over, "");
    forall i | 0 <= i < |rows| ensures Uniform(CloneRows(rows, over)[i]) && 1 <= CloneRows(rows, over)[i].fps <= 120 {
      CloneRowKeeps(rows[i], over);
    }
  }

  lemma RowFromGives(item: Item, cameras: map<CameraId, Camera>)
    requires item.apps != []
    ensures Uniform(RowFrom(item, cameras)) && ItemOfRow(RowFrom(item, cameras)) == item
  {
    AppRowsAre(item.apps, item.config);
  }

  // ---------------------------------------------------------------- preview and commit

  /** Everything the preview digest covers: the revision it would issue, the
      settings, the lifecycle intent and the cameras. With an injective digest,
      comparing digests is comparing candidates. */
  datatype Candidate = Candidate(revision: int, settings: nat, intent: Intent, items: seq<Item>)

  predicate AcceptableItems(items: seq<Item>, cameras: map<CameraId, Camera>) {
    && items != []
    && (forall i, j :: 0 <= i < j < |items| ==> items[i].camera != items[j].camera)
    && forall i :: 0 <= i < |items| ==>
         && items[i].apps != []
         && 1 <= items[i].fps <= 120
         && items[i].camera in cameras
         && cameras[items[i].camera].enabled
  }

  /** `accepted` stands for the checks against the catalog entry and its schema. */
  function CandidateFor(
    d: Deployment, cameras: map<CameraId, Camera>, settings: nat, items: seq<Item>, accepted: bool): Option<Candidate>
  {
    if accepted && AcceptableItems(items, cameras) then Some(Candidate(d.next, settings, d.intent, items)) else None
  }

  function FindKey(sets: seq<AssignmentSet>, key: Key): Option<nat> {
    if sets == [] then None
    else
      var last := |sets| - 1;
      match FindKey(sets[..last], key)
      case Some(i) => Some(i)
      case None => if sets[last].key == key then Some(last) else None
  }

  function Append(d: Deployment, key: Key, settings: nat, intent: Intent, rows: seq<CameraRow>): Deployment {
    d.(next := d.next + 1,
       sets := d.sets + [AssignmentSet(d.next, key, settings, intent, rows)],
       desired := Some(|d.sets|),
       phase := Pending)
  }

  datatype CommitError = Invalid | ChangedAfterPreview

  /** A catalog commit: the ledger afterwards and the set that answers the key. */
  function Commit(
    d: Deployment, cameras: map<CameraId, Camera>, settings: nat, items: seq<Item>,
    preview: Candidate, key: Key, accepted: bool): Result<(Deployment, nat), CommitError>
  {
    match FindKey(d.sets, key)
    case Some(existing) => Ok((d, existing))
    case None =>
      match CandidateFor(d, cameras, settings, items, accepted)
      case None => Err(Invalid)
      case Some(candidate) =>
        if candidate != preview then Err(ChangedAfterPreview)
        else Ok((Append(d, key, settings, d.intent, RowsFrom(items, cameras)), |d.sets|))
  }

  datatype CloneError = DuplicateKey

  /** A clone of a set; the table's unique key makes a repeated key fail. */
  function Clone(d: Deployment, source: AssignmentSet, key: Key, intent: Intent, over: Overrides)
    : Result<Deployment, CloneError>
  {
    if FindKey(d.sets, key).Some? then Err(DuplicateKey)
    else Ok(Append(d, key, source.settings, intent, CloneRows(source.rows, over)))
  }

  /** The set with the highest revision, the first one if several had it. */
  function Latest(sets: seq<AssignmentSet>): nat
    requires sets != []
    ensures Latest(sets) < |sets|
  {
    if |sets| == 1 then 0
    else
      var last := |sets| - 1;
      var before := Latest(sets[..last]);
      if sets[last].revision > sets[before].revision then last else before
  }

  // ---------------------------------------------------------------- synchronization

  function Claim(d: Deployment): Deployment {
    if d.desired.Some? && (d.phase == Pending || d.phase == Failed || d.phase == Applying) then
      d.(phase := Applying, token := Some(|d.claims|), claims := d.claims + [d.desired.value])
    else d
  }

  function RecordSuccess(d: Deployment, token: nat): Deployment {
    if d.token == Some(token) && token < |d.claims| then
      d.(applied := Some(d.claims[token]),
         phase := if d.desired == Some(d.claims[token]) then Applied else Pending,
         token := None)
    else d
  }

  function RecordFailure(d: Deployment, token: nat, operatorRequired: bool): Deployment {
    if d.token == Some(token) && token < |d.claims| then
      d.(phase := if d.desired != Some(d.claims[token]) then Pending
                  else if operatorRequired then OperatorRequired else Failed,
         token := None)
    else d
  }

  predicate RevisionApplied(d: Deployment, revision: Option<int>) {
    && revision.Some?
    && d.phase == Applied
    && d.applied.Some?
    && d.applied.value < |d.sets|
    && d.sets[d.applied.value].revision == revision.value
  }

  // ---------------------------------------------------------------- the ledger's invariant

  ghost predicate Numbered(d: Deployment) {
    && d.next == |d.sets| + 1
    && (forall i :: 0 <= i < |d.sets| ==> d.sets[i].revision == i + 1)
    && (forall i, j :: 0 <= i < j < |d.sets| ==> d.sets[i].key != d.sets[j].key)
  }

  ghost predicate Pointed(d: Deployment) {
    && d.desired == (if d.sets == [] then None else Some(|d.sets| - 1))
    && (d.applied.Some? ==> d.applied.value < |d.sets|)
    && (d.phase == Applied ==> d.desired.Some? && d.applied == d.desired)
    && (d.token.Some? ==> d.token.value < |d.claims| && d.phase != OperatorRequired)
    && (forall t :: 0 <= t < |d.claims| ==> d.claims[t] < |d.sets|)
  }

  ghost predicate Valid(d: Deployment) {
    && Numbered(d)
    && Pointed(d)
    && forall i :: 0 <= i < |d.sets| ==> ValidRows(d.sets[i].rows)
  }

  lemma {:induction false} FindKeyIs(sets: seq<AssignmentSet>, key: Key)
    ensures FindKey(sets, key).Some? ==> FindKey(sets, key).value < |sets| && sets[FindKey(sets, key).value].key == key
    ensures FindKey(sets, key).None? ==> forall i :: 0 <= i < |sets| ==> sets[i].key != key
  {
    if sets != [] {
      FindKeyIs(sets[..|sets| - 1], key);
    }
  }

  lemma FindKeyExtends(sets: seq<AssignmentSet>, added: AssignmentSet, key: Key)
    ensures FindKey(sets + [added], key) ==
            if FindKey(sets, key).Some? then FindKey(sets, key)
            else if added.key == key then Some(|sets|) else None
  {
    assert (sets + [added])[..|sets|] == sets;
  }

  lemma AppendKeepsValid(d: Deployment, key: Key, settings: nat, intent: Intent, rows: seq<CameraRow>)
    requires Valid(d) && FindKey(d.sets, key).None? && ValidRows(rows)
    ensures Valid(Append(d, key, settings, intent, rows))
  {
    FindKeyIs(d.sets, key);
  }

  lemma CommittedRowsAreValid(items: seq<Item>, cameras: map<CameraId, Camera>)
    requires AcceptableItems(items, cameras)
    ensures ValidRows(RowsFrom(items, cameras))
  {
    RowsHold(items, cameras, "");
    forall i | 0 <= i < |items| ensures Uniform(RowsFrom(items, cameras)[i]) && 1 <= RowsFrom(items, cameras)[i].fps <= 120 {
      RowFromGives(items[i], cameras);
    }
  }

  lemma CommitKeepsValid(
    d: Deployment, cameras: map<CameraId, Camera>, settings: nat, items: seq<Item>,
    preview: Candidate, key: Key, accepted: bool)
    requires Valid(d)
    ensures var r := Commit(d, cameras, settings, items, preview, key, accepted);
            r.Ok? ==> Valid(r.value.0) && r.value.1 < |r.value.0.sets| && r.value.0.sets[r.value.1].key == key
  {
    FindKeyIs(d.sets, key);
    if FindKey(d.sets, key).None? && AcceptableItems(items, cameras) {
      CommittedRowsAreValid(items, cameras);
      AppendKeepsValid(d, key, settings, d.intent, RowsFrom(items, cameras));
    }
  }

  /** The row is what the request and the camera's own record say. */
  ghost predicate RowCarries(row: CameraRow, item: Item, camera: Camera) {
    && row.camera == item.camera && row.fps == item.fps
    && row.credential == camera.credential && row.geometryRevision == camera.geometryRevision
    && |row.apps| == |item.apps|
    && forall i :: 0 <= i < |item.apps| ==> row.apps[i].useCase == item.apps[i] && row.apps[i].config == item.config
  }

  lemma {:induction false} AppRowsAt(apps: seq<string>, config: Config, i: nat)
    requires i < |apps|
    ensures |AppRows(apps, config)| == |apps|
    ensures AppRows(apps, config)[i].useCase == apps[i] && AppRows(apps, config)[i].config == config
  {
    AppRowsAre(apps, config);
    if i > 0 {
      AppRowsAt(apps[1..], config, i - 1);
      assert AppRows(apps, config)[i] == AppRows(apps[1..], config)[i - 1];
    }
  }

  /** What an accepted commit under a new key adds: the previewed revision, settings and
      intent; for each camera asked for, which must be enabled, its item with the
      credential and the geometry revision of its record; and no other camera. */
  lemma CommitCarries(
    d: Deployment, cameras: map<CameraId, Camera>, settings: nat, items: seq<Item>,
    preview: Candidate, key: Key, accepted: bool, camera: CameraId)
    requires Valid(d) && FindKey(d.sets, key).None?
    requires Commit(d, cameras, settings, items, preview, key, accepted).Ok?
    ensures var d' := Commit(d, cameras, settings, items, preview, key, accepted).value.0;
            && |d'.sets| == |d.sets| + 1 && d.sets <= d'.sets && d'.desired == Some(|d.sets|) && d'.phase == Pending
            && var added := d'.sets[|d.sets|];
            && added.key == key && added.revision == preview.revision == |d.sets| + 1
            && added.settings == preview.settings == settings && added.intent == preview.intent == d.intent
            && match RowOf(added.rows, camera)
               case Some(row) =>
                 && ItemOf(items, camera).Some? && camera in cameras && cameras[camera].enabled
                 && 1 <= row.fps <= 120 && row.apps != []
                 && RowCarries(row, ItemOf(items, camera).value, cameras[camera])
               case None => ItemOf(items, camera).None?
  {
    RowsHold(items, cameras, camera);
    ListedItem(items, camera);
    if ItemOf(items, camera).Some? {
      var item := ItemOf(items, camera).value;
      AppRowsAre(item.apps, item.config);
      forall i | 0 <= i < |item.apps|
        ensures AppRows(item.apps, item.config)[i].useCase == item.apps[i] && AppRows(item.apps, item.config)[i].config == item.config
      {
        AppRowsAt(item.apps, item.config, i);
      }
    }
  }

  lemma {:induction false} ListedItem(items: seq<Item>, camera: CameraId)
    ensures ItemOf(items, camera).Some? ==>
              exists i :: 0 <= i < |items| && items[i] == ItemOf(items, camera).value && items[i].camera == camera
  {
    if items != [] && items[0].camera != camera {
      ListedItem(items[1..], camera);
      if ItemOf(items, camera).Some? {
        var i :| 0 <= i < |items[1..]| && items[1..][i] == ItemOf(items, camera).value && items[1..][i].camera == camera;
        assert items[i + 1] == items[1..][i];
      }
    }
  }

  lemma CloneKeepsLedger(d: Deployment, source: AssignmentSet, key: Key, intent: Intent, over: Overrides)
    requires Valid(d) && ValidRows(source.rows)
    ensures Clone(d, source, key, intent, over).Ok? ==> Valid(Clone(d, source, key, intent, over).value)
  {
    if FindKey(d.sets, key).None? {
      CloneKeepsValid(source.rows, over);
      AppendKeepsValid(d, key, source.settings, intent, CloneRows(source.rows, over));
    }
  }

  lemma SyncKeepsValid(d: Deployment, token: nat, operatorRequired: bool)
    requires Valid(d)
    ensures Valid(Claim(d)) && Valid(RecordSuccess(d, token)) && Valid(RecordFailure(d, token, operatorRequired))
  {
  }

  /** A worker that asks for work now gets the desired set. */
  predicate OffersWork(d: Deployment) {
    d.desired.Some? && Claim(d).claims == d.claims + [d.desired.value]
  }

  /** What the report of a worker makes of the set it was applying: only success applies it;
      then there is work again exactly if another set is desired by now, and after a failure
      unless it was this set and needs an operator. A report under a lost token counts for nothing. */
  lemma ReportDecides(d: Deployment, token: nat, operatorRequired: bool)
    requires Valid(d) && token < |d.claims|
    ensures var success, failure, set_ := RecordSuccess(d, token), RecordFailure(d, token, operatorRequired), d.claims[token];
            if d.token == Some(token) then
              && success.applied == Some(set_) && failure.applied == d.applied
              && success.sets == d.sets && failure.sets == d.sets && success.desired == d.desired && failure.desired == d.desired
              && (OffersWork(success) <==> d.desired != Some(set_))
              && (OffersWork(failure) <==> d.desired != Some(set_) || !operatorRequired)
            else success == d && failure == d
  {
  }

  /** "Latest by revision" and "synchronization's desired set" are the same set. */
  lemma {:induction false} LatestIsDesired(d: Deployment)
    requires Valid(d) && d.sets != []
    ensures d.desired == Some(Latest(d.sets)) && Latest(d.sets) == |d.sets| - 1
  {
    LatestIsLast(d.sets);
  }

  lemma {:induction false} LatestIsLast(sets: seq<AssignmentSet>)
    requires sets != [] && forall i :: 0 <= i < |sets| ==> sets[i].revision == i + 1
    ensures Latest(sets) == |sets| - 1
  {
    if |sets| > 1 {
      LatestIsLast(sets[..|sets| - 1]);
    }
  }

  /** A revision is applied only while it is the newest one. */
  lemma AppliedRevisionIsNewest(d: Deployment, revision: int)
    requires Valid(d)
    ensures RevisionApplied(d, Some(revision)) <==> d.phase == Applied && revision == |d.sets|
  {
  }
}
