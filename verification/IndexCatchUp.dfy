/** Bounded catch-up of a full-text index: which fragments one run admits, what a completed run has
    changed whatever the engine did, and how many runs drain a backlog. */
module IndexCatchUp {
  import opened Basics
  import opened Sorting

  const INDEX := "content_idx"
  const MAX_ROWS := 100_000
  const MAX_CONTENT_BYTES := 64 * 1024 * 1024
  const MAX_FRAGMENTS := 10_000
  const MAX_SEGMENTS := 256
  const DISK_NEEDED := 512 * 1024 * 1024 + 1024 * 1024 * 1024
  const MAX_GROWTH := 512 * 1024 * 1024

  /** One record batch of a fragment's live content: its rows and the bytes of its strings. */
  datatype ContentBatch = ContentBatch(rows: nat, bytes: nat)

  /** A fragment. Its metadata and the immutable files behind it are one value here. */
  datatype Fragment = Fragment(id: nat, physicalRows: nat, countRows: nat, content: seq<ContentBatch>)

  /** One index segment as the engine lists it. */
  datatype Segment = Segment(uuid: string, name: string, onContent: bool, fullText: bool, fragments: set<nat>,
      detail: string)

  /** What a fresh reader sees of one version of the table. */
  datatype Table = Table(
    version: nat,
    latest: nat,
    fragments: seq<Fragment>,
    indices: seq<Segment>,
    unindexed: int,
    rows: nat,
    schema: string,
    config: map<string, string>,
    tags: string,
    indexConfig: Option<string>)

  datatype Error =
    | Segments | Index | Fragments | Coverage | Rows | ContentBytes | Ownership | Version | AutomaticCleanup
    | Disk | Admission | OwnershipOrVersion | Verification(what: string) | Growth

  type Result<+T> = Basics.Result<T, Error>

  // ---------- what is pending ----------

  function Selected(indices: seq<Segment>): seq<Segment> {
    if indices == [] then []
    else (if indices[0].name == INDEX then [indices[0]] else []) + Selected(indices[1..])
  }

  function Others(indices: seq<Segment>): seq<Segment> {
    if indices == [] then []
    else (if indices[0].name != INDEX then [indices[0]] else []) + Others(indices[1..])
  }

  function Union(segments: seq<Segment>): set<nat> {
    if segments == [] then {} else segments[0].fragments + Union(segments[1..])
  }

  function Covered(t: Table): set<nat> {
    Union(Selected(t.indices))
  }

  function Uncovered(fragments: seq<Fragment>, covered: set<nat>): seq<Fragment> {
    if fragments == [] then []
    else (if fragments[0].id !in covered then [fragments[0]] else []) + Uncovered(fragments[1..], covered)
  }

  predicate ById(f: Fragment, g: Fragment) {
    f.id <= g.id
  }

  /** The fragments no segment covers, lowest id first. */
  function Pending(t: Table): seq<Fragment> {
    Sort(ById, Uncovered(t.fragments, Covered(t)))
  }

  function PhysicalRows(fs: seq<Fragment>): nat {
    if fs == [] then 0 else PhysicalRows(fs[..|fs| - 1]) + fs[|fs| - 1].physicalRows
  }

  function LiveRows(fs: seq<Fragment>): nat {
    if fs == [] then 0 else LiveRows(fs[..|fs| - 1]) + fs[|fs| - 1].countRows
  }

  function BatchBytes(content: seq<ContentBatch>): nat {
    if content == [] then 0 else BatchBytes(content[..|content| - 1]) + content[|content| - 1].bytes
  }

  function BatchRows(content: seq<ContentBatch>): nat {
    if content == [] then 0 else BatchRows(content[..|content| - 1]) + content[|content| - 1].rows
  }

  function ContentBytesOf(fs: seq<Fragment>): nat {
    if fs == [] then 0 else ContentBytesOf(fs[..|fs| - 1]) + BatchBytes(fs[|fs| - 1].content)
  }

  // ---------- the batch one run admits ----------

  predicate WithinLimits(fs: seq<Fragment>) {
    PhysicalRows(fs) <= MAX_ROWS && ContentBytesOf(fs) <= MAX_CONTENT_BYTES
  }

  /** k is the length of the longest prefix of the pending fragments within both limits. */
  ghost predicate Longest(pending: seq<Fragment>, k: nat) {
    && k <= |pending|
    && (forall j :: 0 <= j <= k ==> WithinLimits(pending[..j]))
    && (forall j :: k < j <= |pending| ==> !WithinLimits(pending[..j]))
  }

  lemma {:induction false} PrefixSums(fs: seq<Fragment>, i: nat, j: nat)
    requires i <= j <= |fs|
    ensures PhysicalRows(fs[..j]) == PhysicalRows(fs[..i]) + PhysicalRows(fs[i..j])
    ensures ContentBytesOf(fs[..j]) == ContentBytesOf(fs[..i]) + ContentBytesOf(fs[i..j])
    ensures LiveRows(fs[..j]) == LiveRows(fs[..i]) + LiveRows(fs[i..j])
  {
    if i < j {
      PrefixSums(fs, i, j - 1);
      assert fs[..j][..j - 1] == fs[..j - 1] && fs[i..j][..j - 1 - i] == fs[i..j - 1];
    } else {
      assert fs[i..j] == [];
    }
  }

  lemma LongestByNext(pending: seq<Fragment>, k: nat)
    requires k <= |pending| && WithinLimits(pending[..k])
    requires k < |pending| ==> !WithinLimits(pending[..k + 1])
    ensures Longest(pending, k)
  {
    forall j | 0 <= j <= k
      ensures WithinLimits(pending[..j])
    {
      PrefixSums(pending, j, k);
    }
    forall j | k < j <= |pending|
      ensures !WithinLimits(pending[..j])
    {
      PrefixSums(pending, k + 1, j);
    }
  }

  /** Reads a fragment's live content, stopping early once the byte limit is passed. */
  method ScanContent(f: Fragment, before: nat) returns (rows: nat, bytes: nat)
    requires before <= MAX_CONTENT_BYTES
    ensures before + bytes > MAX_CONTENT_BYTES <==> before + BatchBytes(f.content) > MAX_CONTENT_BYTES
    ensures before + bytes <= MAX_CONTENT_BYTES ==> rows == BatchRows(f.content) && bytes == BatchBytes(f.content)
  {
    rows, bytes := 0, 0;
    var i := 0;
    while i < |f.content|
      invariant i <= |f.content|
      invariant rows == BatchRows(f.content[..i]) && bytes == BatchBytes(f.content[..i])
      invariant before + bytes <= MAX_CONTENT_BYTES
    {
      assert f.content[..i + 1][..i] == f.content[..i];
      rows := rows + f.content[i].rows;
      bytes := bytes + f.content[i].bytes;
      BytesMonotone(f.content, i + 1);
      if before + bytes > MAX_CONTENT_BYTES {
        return;
      }
      i := i + 1;
    }
    assert f.content[..|f.content|] == f.content;
  }

  lemma {:induction false} BytesMonotone(content: seq<ContentBatch>, i: nat)
    requires i <= |content|
    ensures BatchBytes(content[..i]) <= BatchBytes(content)
    decreases |content|
  {
    if i < |content| {
      BytesMonotone(content[..|content| - 1], i);
      assert content[..|content| - 1][..i] == content[..i];
    } else {
      assert content[..i] == content;
    }
  }

  datatype Plan = Plan(
    rows: nat,
    unindexedRows: nat,
    batchRows: nat,
    physicalInputRows: nat,
    contentBytes: nat,
    pendingFragments: nat,
    segmentsBefore: nat,
    batch: seq<nat>)

  function Ids(fs: seq<Fragment>): (r: seq<nat>)
    ensures |r| == |fs|
  {
    seq(|fs|, i requires 0 <= i < |fs| => fs[i].id)
  }

  predicate ScansFully(f: Fragment) {
    BatchRows(f.content) == f.countRows
  }

  /** The segment listing is one the command is qualified for. */
  predicate IndexListed(indices: seq<Segment>) {
    var selected := Selected(indices);
    |indices| <= MAX_SEGMENTS && selected != [] &&
    forall i :: 0 <= i < |selected| ==> selected[i].onContent && selected[i].fullText
  }

  /** Everything a run checks before it picks fragments. */
  ghost predicate Preconditions(t: Table) {
    var selected, pending := Selected(t.indices), Pending(t);
    && IndexListed(t.indices) && |selected| < MAX_SEGMENTS
    && |t.fragments| <= MAX_FRAGMENTS
    && 0 <= t.unindexed <= PhysicalRows(pending)
    && (t.unindexed > 0 ==> forall i :: 0 <= i < |selected| ==> selected[i].fragments != {})
  }

  /** k ends the longest prefix, its fragments scan fully, and the fragment that did not fit does not
      stand where it would block every later run: at the front, or behind nothing but deleted rows. */
  ghost predicate Selectable(pending: seq<Fragment>, k: nat) {
    && Longest(pending, k)
    && (forall i :: 0 <= i < k ==> ScansFully(pending[i]))
    && (k < |pending| ==> k > 0)
    && (k < |pending| && PhysicalRows(pending[..k + 1]) <= MAX_ROWS ==> LiveRows(pending[..k]) > 0)
  }

  /** The longest prefix is one the run accepts, and its live rows agree with the engine's count. */
  ghost predicate Admissible(t: Table, k: nat) {
    var pending := Pending(t);
    && Selectable(pending, k)
    && LiveRows(pending[..k]) <= t.unindexed
    && (k == |pending| ==> LiveRows(pending[..k]) == t.unindexed)
    && (t.unindexed > 0 ==> LiveRows(pending[..k]) > 0)
    && (LiveRows(pending[..k]) > 0 ==> |t.indices| < MAX_SEGMENTS)
  }

  ghost predicate IsPlan(t: Table, plan: Plan) {
    var pending, k := Pending(t), |plan.batch|;
    && k <= |pending|
    && plan.batch == Ids(pending[..k])
    && plan.batchRows == LiveRows(pending[..k])
    && plan.physicalInputRows == PhysicalRows(pending[..k])
    && plan.contentBytes == ContentBytesOf(pending[..k])
    && plan.unindexedRows == t.unindexed && plan.rows == t.rows
    && plan.pendingFragments == |pending| && plan.segmentsBefore == |Selected(t.indices)|
  }

  /** Picks fragments from the front until a limit would be passed. */
  method SelectBatch(pending: seq<Fragment>) returns (r: Result<(nat, nat, nat, nat)>)
    ensures r.Success? ==>
      var (k, live, physical, bytes) := r.value;
      Longest(pending, k) && live == LiveRows(pending[..k]) && physical == PhysicalRows(pending[..k])
        && bytes == ContentBytesOf(pending[..k])
    ensures r.Success? <==> exists k: nat :: Selectable(pending, k)
    ensures r != Failure(AutomaticCleanup)
    ensures r.Success? ==> Selectable(pending, r.value.0)
  {
    var physical, live, bytes, k := 0, 0, 0, 0;
    while k < |pending|
      invariant k <= |pending|
      invariant physical == PhysicalRows(pending[..k]) && live == LiveRows(pending[..k])
        && bytes == ContentBytesOf(pending[..k])
      invariant physical <= MAX_ROWS && bytes <= MAX_CONTENT_BYTES
      invariant forall i :: 0 <= i < k ==> ScansFully(pending[i])
    {
      var f := pending[k];
      assert pending[..k + 1][..k] == pending[..k];
      if physical + f.physicalRows > MAX_ROWS {
        LongestByNext(pending, k);
        LongestUnique(pending);
        if k == 0 {
          return Failure(Rows);
        }
        assert Selectable(pending, k);
        break;
      }
      var fragmentRows, fragmentBytes := ScanContent(f, bytes);
      if bytes + fragmentBytes > MAX_CONTENT_BYTES {
        LongestByNext(pending, k);
        LongestUnique(pending);
        if k == 0 || live == 0 {
          return Failure(ContentBytes);
        }
        assert Selectable(pending, k);
        break;
      }
      if fragmentRows != f.countRows {
        LaterPrefix(pending, k);
        return Failure(Coverage);
      }
      k := k + 1;
      physical := physical + f.physicalRows;
      live := live + fragmentRows;
      bytes := bytes + fragmentBytes;
    }
    LongestByNext(pending, k);
    assert Selectable(pending, k);
    return Success((k, live, physical, bytes));
  }

  lemma LongestUnique(pending: seq<Fragment>)
    ensures forall j: nat, k: nat :: Longest(pending, j) && Longest(pending, k) ==> j == k
  {
    forall j: nat, k: nat | Longest(pending, j) && Longest(pending, k)
      ensures j == k
    {
      var atJ, atK := WithinLimits(pending[..j]), WithinLimits(pending[..k]);
    }
  }

  /** A fragment that still fits belongs to the longest prefix. */
  lemma LaterPrefix(pending: seq<Fragment>, k: nat)
    requires k < |pending| && WithinLimits(pending[..k + 1])
    ensures forall j: nat :: Longest(pending, j) ==> j > k
  {
  }

  /** Admits a batch exactly when the table meets the preconditions and its longest prefix is admissible. */
  method Prepare(t: Table) returns (r: Result<Plan>)
    ensures r.Success? <==> Preconditions(t) && exists k: nat :: Admissible(t, k)
    ensures r != Failure(AutomaticCleanup)
    ensures r.Success? ==> IsPlan(t, r.value) && Admissible(t, |r.value.batch|)
  {
    var selected := Selected(t.indices);
    if |t.indices| > MAX_SEGMENTS {
      return Failure(Segments);
    }
    if !IndexListed(t.indices) {
      return Failure(Index);
    }
    if |selected| >= MAX_SEGMENTS {
      return Failure(Segments);
    }
    if |t.fragments| > MAX_FRAGMENTS {
      return Failure(Fragments);
    }
    var pending := Pending(t);
    if !(0 <= t.unindexed <= PhysicalRows(pending)) {
      return Failure(Coverage);
    }
    if t.unindexed > 0 && exists i | 0 <= i < |selected| :: selected[i].fragments == {} {
      return Failure(Index);
    }
    var chosen := SelectBatch(pending);
    if chosen.Failure? {
      return Failure(chosen.error);
    }
    var (k, live, physical, bytes) := chosen.value;
    LongestUnique(pending);
    if live > t.unindexed || (k == |pending| && live != t.unindexed) {
      return Failure(Coverage);
    }
    if t.unindexed > 0 && live == 0 {
      return Failure(Rows);
    }
    if live > 0 && |t.indices| >= MAX_SEGMENTS {
      return Failure(Segments);
    }
    assert Admissible(t, k);
    return Success(Plan(t.rows, t.unindexed, live, physical, bytes, |pending|, |selected|, Ids(pending[..k])));
  }

  // ---------- one run, against an engine that may do anything ----------

  /** Everything a run observes besides the table it opened: what the host admits, what the engine
      claims to have built, and the table a fresh reader sees afterwards. Nothing relates `after` to
      the table before the run; the run's own checks must. */
  datatype World = World(
    tablePathOk: bool,
    ownerAtStart: bool,
    engineOk: bool,
    filesBefore: map<string, nat>,
    freeBytes: nat,
    admitted: bool,
    ownerAtAdmission: bool,
    latestAtAdmission: nat,
    built: Segment,
    builtConfigOk: bool,
    ownerAtCommit: bool,
    latestAtCommit: nat,
    after: Table,
    filesAfter: map<string, nat>,
    newFileBytes: nat,
    ownerAtEnd: bool)

  datatype Report = Report(plan: Plan, changed: bool, afterVersion: nat, remainingRows: int)

  predicate AutoCleanup(config: map<string, string>) {
    exists key | key in config :: "lance.auto_cleanup." <= key
  }

  predicate Immutable(name: string): (r: bool)
    ensures r <==> InPayload(name)
  {
    DirectoryOpens(name, "data");
    DirectoryOpens(name, "_indices");
    DirectoryOpens(name, "_deletions");
    "data/" <= name || "_indices/" <= name || "_deletions/" <= name
  }

  function BatchSet(plan: Plan): set<nat> {
    set id | id in plan.batch
  }

  function Uuids(segments: seq<Segment>): set<string> {
    set s | s in segments :: s.uuid
  }

  /** The segments whose uuid is (or is not) among the given ones, in order. */
  function WithUuid(segments: seq<Segment>, uuids: set<string>, member: bool): seq<Segment> {
    if segments == [] then []
    else (if (segments[0].uuid in uuids) == member then [segments[0]] else []) + WithUuid(segments[1..], uuids, member)
  }

  /** The verification a completed run has passed, check by check. */
  predicate Verified(expected: nat, before: Table, plan: Plan, changed: bool, w: World) {
    var was, now := Selected(before.indices), Selected(w.after.indices);
    var added := WithUuid(now, Uuids(was), false);
    && w.after.version == expected + (if changed then 1 else 0) && w.after.latest == w.after.version
    && w.after.fragments == before.fragments
    && w.after.schema == before.schema
    && w.after.config == before.config
    && w.after.tags == before.tags
    && w.after.rows == plan.rows
    && (forall name | name in w.filesBefore && Immutable(name) ::
      name in w.filesAfter && w.filesAfter[name] == w.filesBefore[name])
    && Others(w.after.indices) == Others(before.indices)
    && (forall i | 0 <= i < |was| :: was[i] in now)
    && |now| == |was| + (if changed then 1 else 0)
    && (changed ==> |added| == 1 && added[0].fragments == set id | id in plan.batch)
    && w.after.indexConfig == before.indexConfig
    && w.ownerAtEnd
  }

  /** Everything a run insists on before it builds, besides a plan. */
  ghost predicate Admitted(expected: nat, before: Table, w: World) {
    && w.tablePathOk && w.engineOk && w.ownerAtStart && before.version == before.latest == expected
    && (forall key :: key in before.config ==> !("lance.auto_cleanup." <= key))
    && before.indexConfig != None && w.freeBytes >= DISK_NEEDED
    && w.admitted && w.ownerAtAdmission && w.latestAtAdmission == expected
  }

  /** The segment built is for the batch and is published by the table's owner onto the expected head. */
  ghost predicate Published(expected: nat, plan: Plan, w: World) {
    w.built.fragments == BatchSet(plan) && w.builtConfigOk && w.ownerAtCommit && w.latestAtCommit == expected
  }

  /** A run with this plan passes every check from the first to the last. */
  ghost predicate Acceptable(expected: nat, commit: bool, before: Table, plan: Plan, w: World) {
    var changed := commit && plan.batchRows > 0;
    && Admitted(expected, before, w)
    && Preconditions(before) && IsPlan(before, plan) && Admissible(before, |plan.batch|)
    && (changed ==> Published(expected, plan, w))
    && IndexListed(w.after.indices) && Verified(expected, before, plan, changed, w)
    && w.after.unindexed == before.unindexed - (if commit then plan.batchRows else 0)
    && w.newFileBytes <= MAX_GROWTH
  }

  /** A table has one plan at most. */
  lemma PlanUnique(t: Table, p: Plan, q: Plan)
    requires IsPlan(t, p) && Admissible(t, |p.batch|) && IsPlan(t, q) && Admissible(t, |q.batch|)
    ensures p == q
  {
    LongestUnique(Pending(t));
    hide Pending, LiveRows, PhysicalRows, ContentBytesOf, Longest, Ids, Selected;
  }

  /** One run of the command, in the order it checks, builds, publishes and verifies. It reports success
      exactly when its one plan is acceptable. */
  method Run(expected: nat, commit: bool, before: Table, w: World) returns (r: Result<Report>)
    ensures r.Success? <==> exists plan :: Acceptable(expected, commit, before, plan, w)
    ensures r == Failure(AutomaticCleanup) ==> exists key :: key in before.config && "lance.auto_cleanup." <= key
    ensures r.Success? ==> Preserved(before, w) && w.ownerAtStart && w.ownerAtAdmission
    ensures r.Success? ==>
      && Acceptable(expected, commit, before, r.value.plan, w)
      && r.value.changed == (commit && r.value.plan.batchRows > 0)
      && r.value.afterVersion == w.after.version
      && r.value.remainingRows == w.after.unindexed
    ensures r.Success? && DistinctUuids(Selected(before.indices)) ==>
      Advanced(before, w.after, r.value.plan, r.value.changed)
    ensures r.Success? && commit && before.unindexed > 0 ==> r.value.changed && r.value.remainingRows < before.unindexed
  {
    AcceptableNeeds(expected, commit, before, w);
    hide Verified, IndexListed, Preconditions, Advanced, Selected, Acceptable, Admitted, Preserved;
    if !w.tablePathOk || !w.engineOk {
      return Failure(Verification("table"));
    }
    if !w.ownerAtStart {
      return Failure(Ownership);
    }
    if before.version != expected || before.latest != expected {
      return Failure(Version);
    }
    if AutoCleanup(before.config) {
      return Failure(AutomaticCleanup);
    }
    if before.indexConfig == None {
      return Failure(Index);
    }
    var prepared := Prepare(before);
    if prepared.Failure? {
      return Failure(prepared.error);
    }
    var plan := prepared.value;
    forall other | Acceptable(expected, commit, before, other, w)
      ensures other == plan
    {
      AcceptablePlan(expected, commit, before, other, w);
      PlanUnique(before, plan, other);
    }
    if Acceptable(expected, commit, before, plan, w) {
      AcceptablePlan(expected, commit, before, plan, w);
    }
    PlanProgress(before, plan);
    hide IsPlan, Admissible;
    if w.freeBytes < DISK_NEEDED {
      return Failure(Disk);
    }
    if !w.admitted {
      return Failure(Admission);
    }
    if !w.ownerAtAdmission || w.latestAtAdmission != expected {
      return Failure(OwnershipOrVersion);
    }
    var changed := commit && plan.batchRows > 0;
    if changed {
      if w.built.fragments != BatchSet(plan) || !w.builtConfigOk {
        return Failure(Verification("new-index"));
      }
      if !w.ownerAtCommit || w.latestAtCommit != expected {
        return Failure(OwnershipOrVersion);
      }
    }
    if !IndexListed(w.after.indices) {
      return Failure(Index);
    }
    if !Verified(expected, before, plan, changed, w) {
      return Failure(Verification("check"));
    }
    var remaining := w.after.unindexed;
    if remaining != plan.unindexedRows - (if commit then plan.batchRows else 0) {
      return Failure(Verification("remaining"));
    }
    if w.newFileBytes > MAX_GROWTH {
      return Failure(Growth);
    }
    AdmittedWhen(expected, before, w);
    AcceptableWhen(expected, commit, before, plan, w);
    VerifiedPreserves(expected, before, plan, changed, w);
    if DistinctUuids(Selected(before.indices)) {
      CompletedRunAdvances(expected, commit, before, plan, changed, w);
    }
    return Success(Report(plan, changed, w.after.version, remaining));
  }

  /** What a run that is refused fails, whichever its plan. */
  lemma AcceptableNeeds(expected: nat, commit: bool, before: Table, w: World)
    ensures forall plan :: Acceptable(expected, commit, before, plan, w) ==>
      && w.tablePathOk && w.engineOk && w.ownerAtStart && before.version == before.latest == expected
      && !AutoCleanup(before.config) && before.indexConfig != None && w.freeBytes >= DISK_NEEDED
      && w.admitted && w.ownerAtAdmission && w.latestAtAdmission == expected
      && Preconditions(before) && (exists k: nat :: Admissible(before, k))
      && IndexListed(w.after.indices) && w.newFileBytes <= MAX_GROWTH
  {
    hide Preconditions, Admissible, IndexListed, Verified;
  }

  lemma AcceptablePlan(expected: nat, commit: bool, before: Table, plan: Plan, w: World)
    requires Acceptable(expected, commit, before, plan, w)
    ensures IsPlan(before, plan) && Admissible(before, |plan.batch|)
    ensures commit && plan.batchRows > 0 ==> Published(expected, plan, w)
    ensures Verified(expected, before, plan, commit && plan.batchRows > 0, w)
    ensures w.after.unindexed == before.unindexed - (if commit then plan.batchRows else 0)
  {
  }

  lemma AdmittedWhen(expected: nat, before: Table, w: World)
    requires w.tablePathOk && w.engineOk && w.ownerAtStart && before.version == before.latest == expected
    requires !AutoCleanup(before.config) && before.indexConfig != None && w.freeBytes >= DISK_NEEDED
    requires w.admitted && w.ownerAtAdmission && w.latestAtAdmission == expected
    ensures Admitted(expected, before, w)
  {
  }

  lemma AcceptableWhen(expected: nat, commit: bool, before: Table, plan: Plan, w: World)
    requires Admitted(expected, before, w) && Preconditions(before)
    requires IsPlan(before, plan) && Admissible(before, |plan.batch|)
    requires commit && plan.batchRows > 0 ==> Published(expected, plan, w)
    requires IndexListed(w.after.indices) && Verified(expected, before, plan, commit && plan.batchRows > 0, w)
    requires w.after.unindexed == before.unindexed - (if commit then plan.batchRows else 0)
    requires w.newFileBytes <= MAX_GROWTH
    ensures Acceptable(expected, commit, before, plan, w)
  {
    hide Admitted, Preconditions, Admissible, IndexListed, Verified;
  }

  lemma {:induction false} ListedByName(indices: seq<Segment>, s: Segment)
    ensures s in Selected(indices) <==> s in indices && s.name == "content_idx"
    ensures s in Others(indices) <==> s in indices && s.name != "content_idx"
  {
    if indices != [] { ListedByName(indices[1..], s); }
  }

  /** The listing has some segments of the index, all of them full-text segments on the content column. */
  lemma IndexListedMeans(indices: seq<Segment>)
    ensures IndexListed(indices) <==>
      && |indices| <= 256
      && (exists s :: s in indices && s.name == "content_idx")
      && (forall s :: s in indices && s.name == "content_idx" ==> s.onContent && s.fullText)
  {
    var selected := Selected(indices);
    forall s: Segment
      ensures s in selected <==> s in indices && s.name == "content_idx"
    {
      ListedByName(indices, s);
    }
    if selected != [] { assert selected[0] in selected; }
    assert forall i :: 0 <= i < |selected| ==> selected[i] in selected;
  }

  ghost predicate Below(name: string, dir: string) {
    exists rest :: name == dir + "/" + rest
  }

  ghost predicate InPayload(name: string) {
    Below(name, "data") || Below(name, "_indices") || Below(name, "_deletions")
  }

  lemma DirectoryOpens(name: string, dir: string)
    ensures Below(name, dir) <==> dir + "/" <= name
  {
    if dir + "/" <= name { assert name == dir + "/" + name[|dir| + 1..]; }
  }

  /** What a reader and the file system show to be as before, and what the index still is. */
  ghost predicate Preserved(before: Table, w: World) {
    && w.after.fragments == before.fragments && w.after.rows == before.rows && w.after.schema == before.schema
    && w.after.config == before.config && w.after.tags == before.tags && w.after.indexConfig == before.indexConfig
    && (forall name :: name in w.filesBefore && InPayload(name) ==>
          name in w.filesAfter && w.filesAfter[name] == w.filesBefore[name])
    && (forall s: Segment :: s.name != "content_idx" ==> (s in w.after.indices <==> s in before.indices))
    && (forall s: Segment :: s.name == "content_idx" && s in before.indices ==> s in w.after.indices)
    && (forall s: Segment :: s.name == "content_idx" && s in w.after.indices ==> s.onContent && s.fullText)
    && w.ownerAtEnd
  }

  lemma VerifiedPreserves(expected: nat, before: Table, plan: Plan, changed: bool, w: World)
    requires Verified(expected, before, plan, changed, w) && IndexListed(w.after.indices) && IsPlan(before, plan)
    ensures Preserved(before, w)
  {
    assert forall name :: name in w.filesBefore && InPayload(name) ==> Immutable(name);
    forall s: Segment
      ensures s.name != "content_idx" ==> (s in w.after.indices <==> s in before.indices)
      ensures s.name == "content_idx" && s in before.indices ==> s in w.after.indices
      ensures s.name == "content_idx" && s in w.after.indices ==> s.onContent && s.fullText
    {
      ListedByName(before.indices, s);
      ListedByName(w.after.indices, s);
    }
  }

  lemma PlanProgress(t: Table, plan: Plan)
    requires IsPlan(t, plan) && Admissible(t, |plan.batch|)
    ensures plan.unindexedRows == t.unindexed && (t.unindexed > 0 ==> plan.batchRows > 0)
  {
  }

  // ---------- what the checks alone imply ----------

  datatype Probe = Covers(id: nat) | Named(uuid: string)

  predicate Hit(probe: Probe, s: Segment) {
    match probe
    case Covers(id) => id in s.fragments
    case Named(uuid) => s.uuid == uuid
  }

  /** How many of the segments the probe hits. */
  ghost function Count(segments: seq<Segment>, probe: Probe): nat {
    if segments == [] then 0 else (if Hit(probe, segments[0]) then 1 else 0) + Count(segments[1..], probe)
  }

  /** No fragment is indexed by two segments. */
  ghost predicate Disjoint(segments: seq<Segment>) {
    forall id :: Count(segments, Covers(id)) <= 1
  }

  ghost predicate DistinctUuids(segments: seq<Segment>) {
    forall uuid :: Count(segments, Named(uuid)) <= 1
  }

  lemma {:induction false} CountAppend(a: seq<Segment>, b: seq<Segment>, probe: Probe)
    ensures Count(a + b, probe) == Count(a, probe) + Count(b, probe)
  {
    if a == [] {
      assert a + b == b;
    } else {
      CountAppend(a[1..], b, probe);
      assert (a + b)[1..] == a[1..] + b;
    }
  }

  lemma {:induction false} CountRemove(b: seq<Segment>, j: nat, probe: Probe)
    requires j < |b|
    ensures Count(b, probe) == (if Hit(probe, b[j]) then 1 else 0) + Count(b[..j] + b[j + 1..], probe)
    ensures multiset(b[..j] + b[j + 1..]) == multiset(b) - multiset{b[j]}
  {
    assert b == b[..j] + b[j..] && b[j..] == [b[j]] + b[j + 1..];
    CountAppend(b[..j], b[j..], probe);
    CountAppend(b[..j], b[j + 1..], probe);
    assert b[j..][1..] == b[j + 1..];
  }

  /** The head of one listing, found in another with the same members. */
  lemma FindHead(a: seq<Segment>, b: seq<Segment>) returns (j: nat)
    requires a != [] && multiset(a) == multiset(b)
    ensures j < |b| && b[j] == a[0] && multiset(a[1..]) == multiset(b[..j] + b[j + 1..])
  {
    assert a[0] in multiset(a);
    j :| 0 <= j < |b| && b[j] == a[0];
    SameWithout(a, b, j);
  }

  lemma SameWithout(a: seq<Segment>, b: seq<Segment>, j: nat)
    requires a != [] && multiset(a) == multiset(b) && j < |b| && b[j] == a[0]
    ensures multiset(a[1..]) == multiset(b[..j] + b[j + 1..])
  {
    RemoveAt(b, j);
    assert a == [a[0]] + a[1..];
    assert multiset(a[1..]) == multiset(a) - multiset{a[0]};
  }

  /** Counting does not depend on the order of the listing. */
  lemma {:induction false} CountPermutes(a: seq<Segment>, b: seq<Segment>, probe: Probe)
    requires multiset(a) == multiset(b)
    ensures Count(a, probe) == Count(b, probe)
  {
    assert |multiset(b)| == |b| && |multiset(a)| == |a|;
    if a != [] {
      hide Hit;
      var j := FindHead(a, b);
      CountRemove(b, j, probe);
      CountPermutes(a[1..], b[..j] + b[j + 1..], probe);
    }
  }

  lemma {:induction false} MultiplicityBelowCount(segments: seq<Segment>, s: Segment)
    ensures multiset(segments)[s] <= Count(segments, Named(s.uuid))
  {
    if segments != [] {
      assert segments == [segments[0]] + segments[1..];
      MultiplicityBelowCount(segments[1..], s);
    }
  }

  lemma {:induction false} WithUuidSplits(segments: seq<Segment>, uuids: set<string>)
    ensures multiset(segments) == multiset(WithUuid(segments, uuids, true)) + multiset(WithUuid(segments, uuids, false))
    ensures |segments| == |WithUuid(segments, uuids, true)| + |WithUuid(segments, uuids, false)|
    ensures forall s :: s in WithUuid(segments, uuids, true) <==> s in segments && s.uuid in uuids
    ensures forall s :: s in WithUuid(segments, uuids, false) <==> s in segments && s.uuid !in uuids
  {
    if segments != [] {
      assert segments == [segments[0]] + segments[1..];
      WithUuidSplits(segments[1..], uuids);
    }
  }

  /** Distinct segments, each found in a listing of the same length, are that listing. */
  lemma SameListing(was: seq<Segment>, now: seq<Segment>)
    requires DistinctUuids(was) && |was| == |now| && forall s :: s in was ==> s in now
    ensures multiset(was) == multiset(now)
  {
    forall s
      ensures multiset(was)[s] <= multiset(now)[s]
    {
      MultiplicityBelowCount(was, s);
      assert Count(was, Named(s.uuid)) <= 1;
      if s in multiset(was) { assert s in now; }
    }
    assert |multiset(was)| == |was| && |multiset(now)| == |now|;
    SubmultisetOfSameSize(multiset(was), multiset(now));
  }

  /** The new listing is the old one plus, after a commit, one segment for exactly the batch. */
  lemma ListingAfterRun(expected: nat, before: Table, plan: Plan, changed: bool, w: World) returns (added: seq<Segment>)
    requires Verified(expected, before, plan, changed, w) && DistinctUuids(Selected(before.indices))
    ensures |added| == (if changed then 1 else 0)
    ensures changed ==>
      added[0].fragments == (set id | id in plan.batch) && added[0].uuid !in Uuids(Selected(before.indices))
    ensures multiset(Selected(w.after.indices)) == multiset(Selected(before.indices) + added)
  {
    var was, now := Selected(before.indices), Selected(w.after.indices);
    assert forall s :: s in was ==> s in now && s.uuid in Uuids(was);
    if changed {
      added := WithUuid(now, Uuids(was), false);
      WithUuidSplits(now, Uuids(was));
      SameListing(was, WithUuid(now, Uuids(was), true));
      assert added[0] in added;
    } else {
      added := [];
      SameListing(was, now);
      assert was + added == was;
    }
  }

  lemma {:induction false} UnionMembers(segments: seq<Segment>, id: nat)
    ensures id in Union(segments) <==> Count(segments, Covers(id)) > 0
  {
    if segments != [] { UnionMembers(segments[1..], id); }
  }

  lemma {:induction false} UuidMembers(segments: seq<Segment>, uuid: string)
    ensures uuid in Uuids(segments) <==> Count(segments, Named(uuid)) > 0
  {
    if segments != [] {
      UuidMembers(segments[1..], uuid);
      assert segments == [segments[0]] + segments[1..];
      assert uuid in Uuids(segments) <==> uuid == segments[0].uuid || uuid in Uuids(segments[1..]);
    }
  }

  lemma {:induction false} UncoveredMembers(fragments: seq<Fragment>, covered: set<nat>)
    ensures forall f :: f in Uncovered(fragments, covered) <==> f in fragments && f.id !in covered
  {
    if fragments != [] { UncoveredMembers(fragments[1..], covered); }
  }

  lemma BatchUncovered(t: Table, k: nat)
    requires k <= |Pending(t)|
    ensures forall id :: id in Ids(Pending(t)[..k]) ==> id !in Covered(t)
  {
    var uncovered := Uncovered(t.fragments, Covered(t));
    UncoveredMembers(t.fragments, Covered(t));
    SortKeeps(ById, uncovered);
    forall i | 0 <= i < k
      ensures Pending(t)[i].id !in Covered(t)
    {
      assert Pending(t)[i] in multiset(Pending(t));
      assert Pending(t)[i] in uncovered;
    }
  }

  /** What a run that reports success has done to the table. */
  ghost predicate Advanced(before: Table, after: Table, plan: Plan, changed: bool) {
    var was, now := Selected(before.indices), Selected(after.indices);
    && after.version == before.version + (if changed then 1 else 0) && after.latest == after.version
    && after.fragments == before.fragments && after.rows == before.rows
    && after.schema == before.schema && after.config == before.config && after.tags == before.tags
    && Others(after.indices) == Others(before.indices)
    && (forall s :: s in was ==> s in now)
    && Covered(after) == Covered(before) + (if changed then BatchSet(plan) else {})
    && BatchSet(plan) !! Covered(before)
    && (Disjoint(was) ==> Disjoint(now))
    && DistinctUuids(now)
    && after.unindexed == before.unindexed - (if changed then plan.batchRows else 0)
    && (changed <==> 0 < plan.batchRows && after.version > before.version)
  }

  /** Whatever the engine did, a run that completes has kept every old segment and all data, and its
      segments cover exactly the chosen batch more, still without overlap. */
  lemma CompletedRunAdvances(expected: nat, commit: bool, before: Table, plan: Plan, changed: bool, w: World)
    requires before.version == expected && DistinctUuids(Selected(before.indices))
    requires IsPlan(before, plan) && changed == (commit && plan.batchRows > 0)
    requires Verified(expected, before, plan, changed, w)
    requires w.after.unindexed == before.unindexed - (if commit then plan.batchRows else 0)
    ensures Advanced(before, w.after, plan, changed)
  {
    var was, now := Selected(before.indices), Selected(w.after.indices);
    var added := ListingAfterRun(expected, before, plan, changed, w);
    BatchUncovered(before, |plan.batch|);
    forall probe
      ensures Count(now, probe) == Count(was, probe) + Count(added, probe)
    {
      CountPermutes(now, was + added, probe);
      CountAppend(was, added, probe);
    }
    CoverageAfterRun(before, w.after, plan, changed, added);
    forall uuid
      ensures Count(now, Named(uuid)) <= 1
    {
      UuidMembers(was, uuid);
      assert Count(now, Named(uuid)) == Count(was, Named(uuid)) + Count(added, Named(uuid));
      AtMostOne(added, Named(uuid));
    }
    if Disjoint(was) {
      forall id
        ensures Count(now, Covers(id)) <= 1
      {
        UnionMembers(was, id);
        assert Count(now, Covers(id)) == Count(was, Covers(id)) + Count(added, Covers(id));
        AtMostOne(added, Covers(id));
      }
    }
  }

  lemma AtMostOne(added: seq<Segment>, probe: Probe)
    requires |added| <= 1
    ensures Count(added, probe) == if |added| == 1 && Hit(probe, added[0]) then 1 else 0
  {
    if |added| == 1 { assert added[1..] == []; }
  }

  lemma CoverageAfterRun(before: Table, after: Table, plan: Plan, changed: bool, added: seq<Segment>)
    requires |added| == (if changed then 1 else 0) && (changed ==> added[0].fragments == BatchSet(plan))
    requires forall probe ::
      Count(Selected(after.indices), probe) == Count(Selected(before.indices), probe) + Count(added, probe)
    ensures Covered(after) == Covered(before) + (if changed then BatchSet(plan) else {})
  {
    forall id
      ensures id in Covered(after) <==> id in Covered(before) || (changed && id in BatchSet(plan))
    {
      UnionMembers(Selected(after.indices), id);
      UnionMembers(Selected(before.indices), id);
      AtMostOne(added, Covers(id));
    }
  }

  // ---------- many runs ----------

  ghost predicate UniqueIds(fs: seq<Fragment>) {
    KeysDistinct((f: Fragment) => f.id, fs)
  }

  ghost predicate Ascending(fs: seq<Fragment>) {
    forall i, j :: 0 <= i < j < |fs| ==> fs[i].id < fs[j].id
  }

  lemma SortAscends(fs: seq<Fragment>)
    requires UniqueIds(fs)
    ensures Ascending(Sort(ById, fs))
  {
    SortKeeps(ById, fs);
    SortSorts(ById, fs);
    KeysPermuted((f: Fragment) => f.id, fs, Sort(ById, fs));
  }

  lemma {:induction false} UncoveredUnique(fs: seq<Fragment>, covered: set<nat>)
    requires UniqueIds(fs)
    ensures UniqueIds(Uncovered(fs, covered))
  {
    if fs != [] {
      UncoveredUnique(fs[1..], covered);
      UncoveredMembers(fs[1..], covered);
      var rest := Uncovered(fs[1..], covered);
      assert forall x :: x in rest ==> x.id != fs[0].id;
    }
  }

  /** Ascending lists with the same members are the same list. */
  lemma AscendingDetermined(a: seq<Fragment>, b: seq<Fragment>)
    requires Ascending(a) && Ascending(b) && forall f :: f in a <==> f in b
    ensures a == b
  {
    SameMembers((f: Fragment) => f.id, a, b);
    SortedUnique(ById, a, b);
  }

  lemma PendingMembers(t: Table)
    requires UniqueIds(t.fragments)
    ensures Ascending(Pending(t))
    ensures forall f :: f in Pending(t) <==> f in t.fragments && f.id !in Covered(t)
  {
    var uncovered := Uncovered(t.fragments, Covered(t));
    UncoveredUnique(t.fragments, Covered(t));
    SortAscends(uncovered);
    SortKeeps(ById, uncovered);
    UncoveredMembers(t.fragments, Covered(t));
    forall f
      ensures f in Pending(t) <==> f in uncovered
    {
      assert f in multiset(Pending(t)) <==> f in multiset(uncovered);
    }
  }

  lemma AscendingSuffix(pending: seq<Fragment>, k: nat, batch: set<nat>)
    requires Ascending(pending) && k <= |pending| && batch == (set id | id in Ids(pending[..k]))
    ensures Ascending(pending[k..])
    ensures forall f :: f in pending[k..] <==> f in pending && f.id !in batch
  {
    forall f
      ensures f in pending[k..] <==> f in pending && f.id !in batch
    {
      if f in pending[k..] {
        var i :| 0 <= i < |pending[k..]| && pending[k..][i] == f;
        assert pending[k + i] == f;
        assert forall j :: 0 <= j < k ==> pending[j].id < f.id;
        assert forall id :: id in Ids(pending[..k]) ==> id < f.id;
      }
      if f in pending && f.id !in batch {
        var i :| 0 <= i < |pending| && pending[i] == f;
        forall j | 0 <= j < k
          ensures pending[j].id in batch
        {
          assert Ids(pending[..k])[j] == pending[j].id;
        }
        assert i >= k;
        assert pending[k..][i - k] == f;
      }
    }
  }

  /** A commit takes its batch off the front of the pending list and leaves the rest as it was. */
  lemma PendingAfterCommit(before: Table, after: Table, k: nat, batch: set<nat>)
    requires UniqueIds(before.fragments) && after.fragments == before.fragments
    requires k <= |Pending(before)| && batch == (set id | id in Ids(Pending(before)[..k]))
    requires Covered(after) == Covered(before) + batch
    ensures Pending(after) == Pending(before)[k..]
  {
    PendingMembers(before);
    PendingMembers(after);
    AscendingSuffix(Pending(before), k, batch);
    AscendingDetermined(Pending(after), Pending(before)[k..]);
  }

  /** A completed run, committed or not, between two states of the table. */
  ghost predicate Completed(before: Table, after: Table, plan: Plan, changed: bool) {
    IsPlan(before, plan) && Admissible(before, |plan.batch|) && Advanced(before, after, plan, changed)
  }

  ghost predicate History(ts: seq<Table>, plans: seq<Plan>, changed: seq<bool>) {
    |ts| == |plans| + 1 && |changed| == |plans| &&
    forall i :: 0 <= i < |plans| ==> Completed(ts[i], ts[i + 1], plans[i], changed[i])
  }

  ghost function Commits(changed: seq<bool>): nat {
    if changed == [] then 0 else (if changed[0] then 1 else 0) + Commits(changed[1..])
  }

  ghost function Indexed(plans: seq<Plan>, changed: seq<bool>): nat
    requires |plans| == |changed|
  {
    if plans == [] then 0 else (if changed[0] then plans[0].batchRows else 0) + Indexed(plans[1..], changed[1..])
  }

  ghost function Chosen(plans: seq<Plan>, changed: seq<bool>): set<nat>
    requires |plans| == |changed|
  {
    if plans == [] then {} else (if changed[0] then BatchSet(plans[0]) else {}) + Chosen(plans[1..], changed[1..])
  }

  /** Over any sequence of completed runs: data untouched, every segment kept, no overlap, coverage
      grown by exactly the chosen batches, one version per commit, and rows accounted for. */
  lemma {:induction false} HistoryKeeps(ts: seq<Table>, plans: seq<Plan>, changed: seq<bool>)
    requires History(ts, plans, changed)
    ensures var first, last := ts[0], ts[|plans|];
      && last.fragments == first.fragments && last.rows == first.rows && last.schema == first.schema
      && last.config == first.config && last.tags == first.tags && Others(last.indices) == Others(first.indices)
      && (forall s :: s in Selected(first.indices) ==> s in Selected(last.indices))
      && (Disjoint(Selected(first.indices)) ==> Disjoint(Selected(last.indices)))
      && Covered(last) == Covered(first) + Chosen(plans, changed)
      && Covered(first) !! Chosen(plans, changed)
      && last.version == first.version + Commits(changed)
      && last.unindexed == first.unindexed - Indexed(plans, changed)
  {
    if plans != [] {
      assert Completed(ts[0], ts[1], plans[0], changed[0]);
      HistoryKeeps(ts[1..], plans[1..], changed[1..]);
    }
  }

  /** What a backlog allows: one commit, and two more for each limit it holds in full. */
  ghost function CommitBound(pending: seq<Fragment>): nat {
    1 + 2 * (PhysicalRows(pending) / MAX_ROWS) + 2 * (ContentBytesOf(pending) / MAX_CONTENT_BYTES)
  }

  /** Over any history, check-only runs and idle ones included, the commits are bounded by the backlog it
      started from: two batches with nothing committed in between always pass one of the two limits. */
  lemma {:induction false} CommitsBounded(ts: seq<Table>, plans: seq<Plan>, changed: seq<bool>)
    requires History(ts, plans, changed) && UniqueIds(ts[0].fragments)
    ensures Commits(changed) <= CommitBound(Pending(ts[0]))
    decreases |plans|
  {
    hide PhysicalRows, ContentBytesOf, Pending, Completed, UniqueIds;
    if plans != [] {
      HistoryStep(ts, plans, changed);
      RunEffect(ts[0], ts[1], plans[0], changed[0]);
      if changed[0] {
        CommitsAfter(Pending(ts[0]), |plans[0].batch|, ts[1..], plans[1..], changed[1..]);
      } else {
        CommitsBounded(ts[1..], plans[1..], changed[1..]);
      }
    }
  }

  /** The same, counted from a commit that took k fragments off the front of `pending`. */
  lemma {:induction false} CommitsAfter(
      pending: seq<Fragment>, k: nat, ts: seq<Table>, plans: seq<Plan>, changed: seq<bool>)
    requires History(ts, plans, changed) && UniqueIds(ts[0].fragments)
    requires 0 < k <= |pending| && Pending(ts[0]) == pending[k..]
    requires k < |pending| ==> !WithinLimits(pending[..k + 1])
    ensures 1 + Commits(changed) <= CommitBound(pending)
    decreases |plans|
  {
    hide PhysicalRows, ContentBytesOf, Pending, Completed, UniqueIds, WithinLimits;
    if plans != [] {
      HistoryStep(ts, plans, changed);
      RunEffect(ts[0], ts[1], plans[0], changed[0]);
      if changed[0] {
        var rest := pending[k..][|plans[0].batch|..];
        FrontAndRest(pending, k, |plans[0].batch|);
        RowsDrop(PhysicalRows(pending), PhysicalRows(rest));
        BytesDrop(ContentBytesOf(pending), ContentBytesOf(rest));
        CommitsBounded(ts[1..], plans[1..], changed[1..]);
      } else {
        CommitsAfter(pending, k, ts[1..], plans[1..], changed[1..]);
      }
    }
  }

  lemma HistoryStep(ts: seq<Table>, plans: seq<Plan>, changed: seq<bool>)
    requires History(ts, plans, changed) && plans != []
    ensures Completed(ts[0], ts[1], plans[0], changed[0]) && History(ts[1..], plans[1..], changed[1..])
  {
    assert Completed(ts[0], ts[1], plans[0], changed[0]);
    hide Completed;
    forall i | 0 <= i < |plans| - 1
      ensures Completed(ts[1..][i], ts[1..][i + 1], plans[1..][i], changed[1..][i])
    {
      assert Completed(ts[i + 1], ts[i + 2], plans[i + 1], changed[i + 1]);
    }
  }

  /** A committing run takes its batch off the front of the backlog; any other leaves the backlog alone. */
  lemma RunEffect(before: Table, after: Table, plan: Plan, changed: bool)
    requires UniqueIds(before.fragments) && Completed(before, after, plan, changed)
    ensures after.fragments == before.fragments
    ensures !changed ==> Pending(after) == Pending(before)
    ensures changed ==>
      && 0 < |plan.batch| <= |Pending(before)| && Pending(after) == Pending(before)[|plan.batch|..]
      && (|plan.batch| < |Pending(before)| ==> !WithinLimits(Pending(before)[..|plan.batch| + 1]))
  {
    if changed {
      CommitEffect(before, after, plan);
    } else {
      assert Covered(after) == Covered(before);
    }
  }

  lemma CommitEffect(before: Table, after: Table, plan: Plan)
    requires UniqueIds(before.fragments) && Completed(before, after, plan, true)
    ensures 0 < |plan.batch| <= |Pending(before)| && Pending(after) == Pending(before)[|plan.batch|..]
    ensures after.fragments == before.fragments
    ensures |plan.batch| < |Pending(before)| ==> !WithinLimits(Pending(before)[..|plan.batch| + 1])
  {
    PendingAfterCommit(before, after, |plan.batch|, BatchSet(plan));
  }

  lemma TwoBatches(t0: Table, t1: Table, t2: Table, p0: Plan, p1: Plan)
    requires UniqueIds(t0.fragments) && Completed(t0, t1, p0, true) && Completed(t1, t2, p1, true)
    ensures t2.fragments == t0.fragments
    ensures PhysicalRows(Pending(t2)) <= PhysicalRows(Pending(t0))
      && ContentBytesOf(Pending(t2)) <= ContentBytesOf(Pending(t0))
    ensures PhysicalRows(Pending(t0)) - PhysicalRows(Pending(t2)) > MAX_ROWS ||
            ContentBytesOf(Pending(t0)) - ContentBytesOf(Pending(t2)) > MAX_CONTENT_BYTES
  {
    CommitEffect(t0, t1, p0);
    CommitEffect(t1, t2, p1);
    FrontAndRest(Pending(t0), |p0.batch|, |p1.batch|);
  }

  /** Cutting two batches off the front removes more than the prefix that did not fit. */
  lemma FrontAndRest(pending: seq<Fragment>, k0: nat, k1: nat)
    requires k0 < k0 + k1 <= |pending| && !WithinLimits(pending[..k0 + 1])
    ensures var rest := pending[k0..][k1..];
      && PhysicalRows(rest) <= PhysicalRows(pending) && ContentBytesOf(rest) <= ContentBytesOf(pending)
      && (PhysicalRows(pending) - PhysicalRows(rest) > MAX_ROWS
        || ContentBytesOf(pending) - ContentBytesOf(rest) > MAX_CONTENT_BYTES)
  {
    hide PhysicalRows, ContentBytesOf;
    DropTwice(pending, k0, k1);
    PrefixGrows(pending, k0 + 1, k0 + k1);
    SplitSums(pending, k0 + k1);
  }

  lemma DropTwice(fs: seq<Fragment>, i: nat, j: nat)
    requires i + j <= |fs|
    ensures fs[i..][j..] == fs[i + j..]
  {
  }

  lemma PrefixGrows(fs: seq<Fragment>, i: nat, j: nat)
    requires i <= j <= |fs|
    ensures PhysicalRows(fs[..i]) <= PhysicalRows(fs[..j]) && ContentBytesOf(fs[..i]) <= ContentBytesOf(fs[..j])
  {
    PrefixSums(fs, i, j);
  }

  lemma SplitSums(fs: seq<Fragment>, i: nat)
    requires i <= |fs|
    ensures PhysicalRows(fs) == PhysicalRows(fs[..i]) + PhysicalRows(fs[i..])
    ensures ContentBytesOf(fs) == ContentBytesOf(fs[..i]) + ContentBytesOf(fs[i..])
  {
    PrefixSums(fs, i, |fs|);
    assert fs[..|fs|] == fs && fs[i..|fs|] == fs[i..];
  }

  lemma RowsDrop(big: nat, small: nat)
    requires small <= big
    ensures small / MAX_ROWS <= big / MAX_ROWS
    ensures big - small > MAX_ROWS ==> small / MAX_ROWS + 1 <= big / MAX_ROWS
  {
  }

  lemma BytesDrop(big: nat, small: nat)
    requires small <= big
    ensures small / MAX_CONTENT_BYTES <= big / MAX_CONTENT_BYTES
    ensures big - small > MAX_CONTENT_BYTES ==> small / MAX_CONTENT_BYTES + 1 <= big / MAX_CONTENT_BYTES
  {
  }

  /** Which of the runs committed: those told to that had a batch with live rows. */
  ghost function Changes(plans: seq<Plan>, commit: seq<bool>): (r: seq<bool>)
    requires |commit| == |plans|
    ensures |r| == |plans|
  {
    seq(|plans|, i requires 0 <= i < |plans| => commit[i] && plans[i].batchRows > 0)
  }

  /** How many of the runs were told to commit and started with a backlog. */
  ghost function Backlogged(ts: seq<Table>, commit: seq<bool>): nat
    requires |ts| == |commit| + 1
    decreases |commit|
  {
    if commit == [] then 0 else (if commit[0] && ts[0].unindexed > 0 then 1 else 0) + Backlogged(ts[1..], commit[1..])
  }

  /** Among any runs, those told to commit that found a backlog each strictly lowered it, no other run
      changed it, and there were no more of them than the backlog allows. */
  lemma BacklogDrains(ts: seq<Table>, plans: seq<Plan>, commit: seq<bool>)
    requires |commit| == |plans| && History(ts, plans, Changes(plans, commit)) && UniqueIds(ts[0].fragments)
    ensures forall i :: 0 <= i < |plans| ==>
      if commit[i] && ts[i].unindexed > 0 then ts[i + 1].unindexed < ts[i].unindexed
      else ts[i + 1].unindexed == ts[i].unindexed
    ensures Backlogged(ts, commit) <= CommitBound(Pending(ts[0]))
  {
    var changed := Changes(plans, commit);
    forall i | 0 <= i < |plans|
      ensures changed[i] <==> commit[i] && ts[i].unindexed > 0
      ensures ts[i + 1].unindexed == ts[i].unindexed - (if changed[i] then plans[i].batchRows else 0)
    {
      assert Completed(ts[i], ts[i + 1], plans[i], changed[i]);
    }
    BackloggedCommits(ts, commit, changed);
    CommitsBounded(ts, plans, changed);
  }

  lemma {:induction false} BackloggedCommits(ts: seq<Table>, commit: seq<bool>, changed: seq<bool>)
    requires |ts| == |commit| + 1 == |changed| + 1
    requires forall i :: 0 <= i < |commit| ==> (changed[i] <==> commit[i] && ts[i].unindexed > 0)
    ensures Backlogged(ts, commit) == Commits(changed)
    decreases |commit|
  {
    if commit != [] { BackloggedCommits(ts[1..], commit[1..], changed[1..]); }
  }
}
