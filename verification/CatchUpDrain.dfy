/** Which backlogs catch-up runs can drain: a run against a faithful engine succeeds whenever its table can
    be prepared, and a table reaches an empty backlog exactly when its pending fragments allow it. */
module CatchUpDrain {
  import opened Basics
  import opened IndexCatchUp

  // ---------- a faithful engine and host ----------

  /** The table after a committing run: one more segment, and the batch's rows off the backlog. */
  function AfterRun(before: Table, plan: Plan, extra: Segment): Table {
    if plan.batchRows == 0 then before
    else before.(
      version := before.version + 1,
      latest := before.version + 1,
      indices := before.indices + [extra],
      unindexed := before.unindexed - plan.batchRows)
  }

  /** A segment of the index for exactly the batch, under an identifier of its own. */
  ghost predicate ExtraFor(before: Table, plan: Plan, extra: Segment) {
    && extra.name == INDEX && extra.onContent && extra.fullText && extra.fragments == BatchSet(plan)
    && extra.uuid !in Uuids(Selected(before.indices))
  }

  /** The host admits the run, nothing else touches the table, and the engine does what it is asked. */
  ghost predicate Faithful(before: Table, plan: Plan, extra: Segment, w: World) {
    && Admitted(before.version, before, w) && Published(before.version, plan, w)
    && w.built == extra && ExtraFor(before, plan, extra) && w.after == AfterRun(before, plan, extra)
    && (forall name :: name in w.filesBefore ==> name in w.filesAfter && w.filesAfter[name] == w.filesBefore[name])
    && w.newFileBytes <= MAX_GROWTH && w.ownerAtEnd
  }

  lemma {:induction false} SelectedAppends(indices: seq<Segment>, s: Segment)
    requires s.name == INDEX
    ensures Selected(indices + [s]) == Selected(indices) + [s]
  {
    if indices == [] {
      assert indices + [s] == [s] && [s][1..] == [];
    } else {
      SelectedAppends(indices[1..], s);
      assert (indices + [s])[1..] == indices[1..] + [s];
    }
  }

  lemma {:induction false} OthersAppends(indices: seq<Segment>, s: Segment)
    requires s.name == INDEX
    ensures Others(indices + [s]) == Others(indices)
  {
    if indices == [] {
      assert indices + [s] == [s] && [s][1..] == [];
    } else {
      OthersAppends(indices[1..], s);
      assert (indices + [s])[1..] == indices[1..] + [s];
    }
  }

  lemma {:induction false} ListingSplits(indices: seq<Segment>)
    ensures |indices| == |Selected(indices)| + |Others(indices)|
  {
    if indices != [] { ListingSplits(indices[1..]); }
  }

  /** In a listing followed by one new segment, that segment is what is new. */
  lemma {:induction false} NewSegment(was: seq<Segment>, known: set<string>, extra: Segment)
    requires (forall s :: s in was ==> s.uuid in known) && extra.uuid !in known
    ensures WithUuid(was + [extra], known, false) == [extra]
  {
    if was == [] {
      assert was + [extra] == [extra] && [extra][1..] == [];
    } else {
      NewSegment(was[1..], known, extra);
      assert (was + [extra])[1..] == was[1..] + [extra];
    }
  }

  /** Wherever a plan exists, a faithful run passes every check. */
  lemma FaithfulRunSucceeds(before: Table, plan: Plan, extra: Segment, w: World)
    requires Preconditions(before) && IsPlan(before, plan) && Admissible(before, |plan.batch|)
    requires Faithful(before, plan, extra, w)
    ensures Acceptable(before.version, true, before, plan, w)
  {
    var was := Selected(before.indices);
    PlanProgress(before, plan);
    SelectedAppends(before.indices, extra);
    OthersAppends(before.indices, extra);
    NewSegment(was, Uuids(was), extra);
    ExtraListed(before, plan, extra);
    hide Pending, Selected, Others, WithUuid, IndexListed, Preconditions;
  }

  lemma ExtraListed(before: Table, plan: Plan, extra: Segment)
    requires Preconditions(before) && IsPlan(before, plan) && Admissible(before, |plan.batch|)
    requires ExtraFor(before, plan, extra)
    ensures IndexListed(AfterRun(before, plan, extra).indices)
  {
    SelectedAppends(before.indices, extra);
    hide Pending, Selected;
  }

  // ---------- tables whose counts are right ----------

  /** What the native table guarantees of every version, and the runs keep. */
  ghost predicate Sound(t: Table) {
    && t.version == t.latest && t.indexConfig != None
    && (forall key :: key in t.config ==> !("lance.auto_cleanup." <= key))
    && UniqueIds(t.fragments) && |t.fragments| <= MAX_FRAGMENTS
    && (forall f :: f in t.fragments ==> ScansFully(f) && f.countRows <= f.physicalRows)
    && IndexListed(t.indices) && DistinctUuids(Selected(t.indices))
    && (forall s :: s in Selected(t.indices) ==> s.fragments != {})
    && t.unindexed == LiveRows(Pending(t))
  }

  /** How many segments the listing still has room for. */
  ghost function Slots(t: Table): int {
    MAX_SEGMENTS - |t.indices|
  }

  ghost predicate Scanned(pending: seq<Fragment>) {
    forall i :: 0 <= i < |pending| ==> ScansFully(pending[i])
  }

  /** Where the first live row is; behind the end when there is none. */
  ghost function FirstLive(pending: seq<Fragment>): nat {
    if pending == [] then 0
    else
      var n := |pending| - 1;
      if LiveRows(pending[..n]) > 0 then FirstLive(pending[..n]) else if pending[n].countRows > 0 then n else n + 1
  }

  lemma {:induction false} FirstLiveSplits(pending: seq<Fragment>, k: nat)
    requires k <= |pending|
    ensures LiveRows(pending[..k]) > 0 <==> k > FirstLive(pending)
    decreases |pending|
  {
    if pending != [] {
      var n := |pending| - 1;
      FirstLiveSplits(pending[..n], n);
      assert pending[..n][..n] == pending[..n];
      if k <= n {
        FirstLiveSplits(pending[..n], k);
        assert pending[..n][..k] == pending[..k];
        LiveSplits(pending[..n], k);
      } else {
        assert pending[..k] == pending;
      }
    }
  }

  lemma LiveSplits(fs: seq<Fragment>, i: nat)
    requires i <= |fs|
    ensures LiveRows(fs) == LiveRows(fs[..i]) + LiveRows(fs[i..])
  {
    PrefixSums(fs, i, |fs|);
    assert fs[..|fs|] == fs && fs[i..|fs|] == fs[i..];
  }

  /** The longest prefix within both limits, at least k of them known to be. */
  ghost function FitFrom(pending: seq<Fragment>, k: nat): (r: nat)
    requires k <= |pending| && WithinLimits(pending[..k])
    ensures k <= r <= |pending| && WithinLimits(pending[..r])
    ensures r < |pending| ==> !WithinLimits(pending[..r + 1])
    decreases |pending| - k
  {
    if k < |pending| && WithinLimits(pending[..k + 1]) then FitFrom(pending, k + 1) else k
  }

  ghost function Fit(pending: seq<Fragment>): (r: nat)
    ensures r <= |pending| && Longest(pending, r)
  {
    assert pending[..0] == [];
    var k := FitFrom(pending, 0);
    LongestByNext(pending, k);
    k
  }

  /** The next batch exists: everything up to the first live row fits together. */
  ghost predicate HeadFits(pending: seq<Fragment>) {
    FirstLive(pending) < |pending| && WithinLimits(pending[..FirstLive(pending) + 1])
  }

  /** One look at the front of the backlog decides whether it has a batch with live rows. */
  lemma NextBatch(pending: seq<Fragment>)
    requires Scanned(pending) && LiveRows(pending) > 0
    ensures (exists k: nat :: Selectable(pending, k) && LiveRows(pending[..k]) > 0) <==> HeadFits(pending)
    ensures HeadFits(pending) ==> Selectable(pending, Fit(pending)) && LiveRows(pending[..Fit(pending)]) > 0
  {
    var first, fit := FirstLive(pending), Fit(pending);
    assert pending[..|pending|] == pending;
    FirstLiveSplits(pending, |pending|);
    FirstLiveSplits(pending, fit);
    LongestUnique(pending);
    if HeadFits(pending) {
      assert fit >= first + 1;
      assert Selectable(pending, fit);
    }
    if k: nat :| Selectable(pending, k) && LiveRows(pending[..k]) > 0 {
      assert k == fit && first + 1 <= k;
    }
  }

  lemma SoundPending(t: Table)
    requires Sound(t)
    ensures Scanned(Pending(t)) && LiveRows(Pending(t)) <= PhysicalRows(Pending(t))
    ensures |Selected(t.indices)| <= |t.indices|
  {
    PendingMembers(t);
    ListingSplits(t.indices);
    var pending := Pending(t);
    forall i | 0 <= i < |pending|
      ensures ScansFully(pending[i]) && pending[i].countRows <= pending[i].physicalRows
    {
      assert pending[i] in pending;
    }
    LiveBelowPhysical(pending);
  }

  lemma {:induction false} LiveBelowPhysical(fs: seq<Fragment>)
    requires forall i :: 0 <= i < |fs| ==> fs[i].countRows <= fs[i].physicalRows
    ensures LiveRows(fs) <= PhysicalRows(fs)
  {
    if fs != [] { LiveBelowPhysical(fs[..|fs| - 1]); }
  }

  lemma SoundPreconditions(t: Table)
    requires Sound(t) && Slots(t) > 0
    ensures Preconditions(t)
  {
    SoundPending(t);
    var selected := Selected(t.indices);
    assert forall i :: 0 <= i < |selected| ==> selected[i] in selected;
    hide Pending, Selected, LiveRows, PhysicalRows, IndexListed, UniqueIds, DistinctUuids;
  }

  lemma AdmissibleOnlyIf(t: Table, k: nat)
    requires Sound(t) && t.unindexed > 0 && Admissible(t, k)
    ensures Slots(t) > 0 && HeadFits(Pending(t)) && k == Fit(Pending(t))
  {
    SoundPending(t);
    NextBatch(Pending(t));
    LongestUnique(Pending(t));
    hide Pending, LiveRows, PhysicalRows, Longest, HeadFits, Scanned;
  }

  lemma FitAdmissible(t: Table)
    requires Sound(t) && t.unindexed > 0 && Slots(t) > 0 && HeadFits(Pending(t))
    ensures Admissible(t, Fit(Pending(t)))
  {
    var pending := Pending(t);
    SoundPending(t);
    NextBatch(pending);
    LiveSplits(pending, Fit(pending));
    assert pending[..|pending|] == pending;
    hide Pending, LiveRows, PhysicalRows, Selectable, HeadFits, Scanned, Fit;
  }

  /** A sound table with a backlog can be prepared exactly when the listing has room for a segment and the
      next batch exists; the batch is then everything that fits. Otherwise every run refuses it, and as a
      refused run changes nothing, for ever. */
  lemma PreparedExactly(t: Table)
    requires Sound(t) && t.unindexed > 0
    ensures Preconditions(t) && (exists k: nat :: Admissible(t, k)) <==> Slots(t) > 0 && HeadFits(Pending(t))
    ensures forall k: nat :: Preconditions(t) && Admissible(t, k) ==> k == Fit(Pending(t))
  {
    forall k: nat | Admissible(t, k)
      ensures Slots(t) > 0 && HeadFits(Pending(t)) && k == Fit(Pending(t))
    {
      AdmissibleOnlyIf(t, k);
    }
    if Slots(t) > 0 && HeadFits(Pending(t)) {
      SoundPreconditions(t);
      FitAdmissible(t);
    }
  }

  // ---------- one run, whatever the engine did ----------

  /** Some run leads from one table to another. */
  ghost predicate RunLeads(before: Table, plan: Plan, changed: bool, after: Table) {
    exists w, commit :: Acceptable(before.version, commit, before, plan, w) && w.after == after
      && changed == (commit && plan.batchRows > 0)
  }

  /** A run keeps a table sound. A commit takes a slot, and everything that fits off the front of the
      backlog; any other run leaves both as they are. */
  lemma RunKeepsSound(before: Table, plan: Plan, changed: bool, after: Table)
    requires Sound(before) && RunLeads(before, plan, changed, after)
    ensures Sound(after)
    ensures !changed ==> Slots(after) == Slots(before) && Pending(after) == Pending(before)
    ensures changed ==>
      && Slots(after) == Slots(before) - 1 >= 0 && HeadFits(Pending(before))
      && Pending(after) == Pending(before)[Fit(Pending(before))..]
  {
    var w, commit :| Acceptable(before.version, commit, before, plan, w) && w.after == after
      && changed == (commit && plan.batchRows > 0);
    var k := |plan.batch|;
    CompletedRunAdvances(before.version, commit, before, plan, changed, w);
    RunEffect(before, after, plan, changed);
    LiveSplits(Pending(before), k);
    if changed { AdmissibleOnlyIf(before, k); }
    SlotsAfter(before, after, plan, changed, w);
    SegmentsAfter(before, plan, changed, w);
    hide Acceptable, Verified, Pending, Selected, Others, LiveRows, IndexListed, Preconditions,
      Admissible, HeadFits, Fit;
  }

  lemma SlotsAfter(before: Table, after: Table, plan: Plan, changed: bool, w: World)
    requires Verified(before.version, before, plan, changed, w) && w.after == after
    ensures Slots(after) == Slots(before) - (if changed then 1 else 0)
  {
    ListingSplits(before.indices);
    ListingSplits(after.indices);
    hide Selected, Others, WithUuid;
  }

  /** No segment of the listing is empty after a run. */
  lemma SegmentsAfter(before: Table, plan: Plan, changed: bool, w: World)
    requires Verified(before.version, before, plan, changed, w) && DistinctUuids(Selected(before.indices))
    requires forall s :: s in Selected(before.indices) ==> s.fragments != {}
    requires changed ==> plan.batch != []
    ensures forall s :: s in Selected(w.after.indices) ==> s.fragments != {}
  {
    var was, now := Selected(before.indices), Selected(w.after.indices);
    var added := ListingAfterRun(before.version, before, plan, changed, w);
    forall s | s in now
      ensures s.fragments != {}
    {
      assert s in multiset(now) && s in multiset(was + added);
      if s !in was {
        assert s == added[0] && plan.batch[0] in s.fragments;
      }
    }
  }

  // ---------- which backlogs drain ----------

  /** Batch after batch, the first live row and everything ahead of it fit together, and there are segments
      enough. */
  ghost predicate Drainable(pending: seq<Fragment>, slots: int)
    decreases |pending|
  {
    LiveRows(pending) == 0 || (slots > 0 && HeadFits(pending) && RestDrains(pending, slots))
  }

  ghost predicate RestDrains(pending: seq<Fragment>, slots: int)
    requires HeadFits(pending)
    decreases |pending|, 0
  {
    Fit(pending) > 0 && Drainable(pending[Fit(pending)..], slots - 1)
  }

  lemma FitTakesHead(pending: seq<Fragment>)
    requires HeadFits(pending)
    ensures Fit(pending) > FirstLive(pending)
  {
    assert WithinLimits(pending[..FirstLive(pending) + 1]);
  }

  /** A sequence of runs, check-only and idle ones included. */
  ghost predicate Runs(ts: seq<Table>, plans: seq<Plan>, changed: seq<bool>) {
    |ts| == |plans| + 1 && |changed| == |plans| &&
    forall i :: 0 <= i < |plans| ==> RunLeads(ts[i], plans[i], changed[i], ts[i + 1])
  }

  lemma RunsStep(ts: seq<Table>, plans: seq<Plan>, changed: seq<bool>)
    requires Runs(ts, plans, changed) && plans != []
    ensures RunLeads(ts[0], plans[0], changed[0], ts[1]) && Runs(ts[1..], plans[1..], changed[1..])
  {
    assert RunLeads(ts[0], plans[0], changed[0], ts[1]);
    hide RunLeads;
    forall i | 0 <= i < |plans| - 1
      ensures RunLeads(ts[1..][i], plans[1..][i], changed[1..][i], ts[1..][i + 1])
    {
      assert RunLeads(ts[i + 1], plans[i + 1], changed[i + 1], ts[i + 2]);
    }
  }

  /** Whatever the engine does, runs end without a backlog only on a drainable one. */
  lemma {:induction false} OnlyDrainable(ts: seq<Table>, plans: seq<Plan>, changed: seq<bool>)
    requires Runs(ts, plans, changed) && Sound(ts[0]) && ts[|plans|].unindexed == 0
    ensures Drainable(Pending(ts[0]), Slots(ts[0]))
    decreases |plans|
  {
    hide Sound, RunLeads, Pending, LiveRows, HeadFits, Fit;
    SoundCounts(ts[0]);
    if plans != [] {
      RunsStep(ts, plans, changed);
      RunKeepsSound(ts[0], plans[0], changed[0], ts[1]);
      OnlyDrainable(ts[1..], plans[1..], changed[1..]);
      if changed[0] { FitTakesHead(Pending(ts[0])); }
    }
  }

  lemma SoundCounts(t: Table)
    requires Sound(t)
    ensures t.unindexed == LiveRows(Pending(t)) >= 0
  {
  }

  /** An identifier that is not among the given ones: longer than all of them. */
  lemma {:induction false} NewName(names: set<string>) returns (name: string)
    ensures forall n :: n in names ==> |n| < |name|
  {
    if names == {} {
      name := "x";
    } else {
      var n :| n in names;
      var rest := NewName(names - {n});
      name := rest + n + "x";
    }
  }

  /** A faithful run that takes a sound table's next batch. */
  lemma FaithfulRun(t: Table) returns (plan: Plan, after: Table)
    requires Sound(t) && t.unindexed > 0 && Slots(t) > 0 && HeadFits(Pending(t))
    ensures RunLeads(t, plan, true, after)
  {
    var pending := Pending(t);
    var k := Fit(pending);
    SoundPreconditions(t);
    FitAdmissible(t);
    plan := Plan(t.rows, t.unindexed, LiveRows(pending[..k]), PhysicalRows(pending[..k]), ContentBytesOf(pending[..k]),
                 |pending|, |Selected(t.indices)|, Ids(pending[..k]));
    PlanProgress(t, plan);
    var uuid := NewName(Uuids(Selected(t.indices)));
    var extra := Segment(uuid, INDEX, true, true, BatchSet(plan), "");
    after := AfterRun(t, plan, extra);
    var w := World(true, true, true, map[], DISK_NEEDED, true, true, t.version, extra, true, true, t.version, after,
      map[], 0, true);
    assert Faithful(t, plan, extra, w);
    hide *;
    FaithfulRunSucceeds(t, plan, extra, w);
    LeadsBy(t, plan, w);
  }

  lemma LeadsBy(t: Table, plan: Plan, w: World)
    requires Acceptable(t.version, true, t, plan, w) && plan.batchRows > 0
    ensures RunLeads(t, plan, true, w.after)
  {
    hide Acceptable;
  }

  /** A drainable backlog is drained by faithful runs. */
  lemma {:induction false} FaithfulRunsDrain(t: Table) returns (ts: seq<Table>, plans: seq<Plan>, changed: seq<bool>)
    requires Sound(t) && Drainable(Pending(t), Slots(t))
    ensures Runs(ts, plans, changed) && ts[0] == t && ts[|plans|].unindexed == 0
    decreases |Pending(t)|
  {
    hide Sound, RunLeads, Pending, LiveRows, HeadFits, Fit;
    SoundCounts(t);
    if t.unindexed == 0 {
      ts, plans, changed := [t], [], [];
    } else {
      var plan, after := FaithfulRun(t);
      RunKeepsSound(t, plan, true, after);
      var us, ps, cs := FaithfulRunsDrain(after);
      ts, plans, changed := [t] + us, [plan] + ps, [true] + cs;
      RunsCons(t, plan, us, ps, cs);
    }
  }

  lemma RunsCons(t: Table, plan: Plan, us: seq<Table>, ps: seq<Plan>, cs: seq<bool>)
    requires Runs(us, ps, cs) && RunLeads(t, plan, true, us[0])
    ensures Runs([t] + us, [plan] + ps, [true] + cs)
  {
    hide RunLeads;
    var ts, plans, changed := [t] + us, [plan] + ps, [true] + cs;
    forall i | 0 <= i < |plans|
      ensures RunLeads(ts[i], plans[i], changed[i], ts[i + 1])
    {
      if i > 0 { assert RunLeads(us[i - 1], ps[i - 1], cs[i - 1], us[i]); }
    }
  }

  /** Runs can bring a sound table to an empty backlog exactly when its backlog is drainable. */
  lemma DrainsExactly(t: Table)
    requires Sound(t)
    ensures Drainable(Pending(t), Slots(t)) <==>
      exists ts: seq<Table>, plans: seq<Plan>, changed: seq<bool> ::
        Runs(ts, plans, changed) && ts[0] == t && ts[|plans|].unindexed == 0
  {
    if Drainable(Pending(t), Slots(t)) {
      var ts, plans, changed := FaithfulRunsDrain(t);
    }
    hide Sound, Drainable, Pending;
    if ts: seq<Table>, plans: seq<Plan>, changed: seq<bool> :|
      Runs(ts, plans, changed) && ts[0] == t && ts[|plans|].unindexed == 0
    {
      OnlyDrainable(ts, plans, changed);
    }
  }

  // ---------- reading it off the pending list ----------

  /** Every fragment with live rows fits together with any dead stretch directly ahead of it. */
  ghost predicate Passable(pending: seq<Fragment>) {
    forall i, j :: 0 <= i <= j < |pending| && LiveRows(pending[i..j]) == 0 && pending[j].countRows > 0 ==>
      WithinLimits(pending[i..j + 1])
  }

  lemma PassableRest(pending: seq<Fragment>, k: nat)
    requires Passable(pending) && k <= |pending|
    ensures Passable(pending[k..])
  {
    var rest := pending[k..];
    forall i, j | 0 <= i <= j < |rest| && LiveRows(rest[i..j]) == 0 && rest[j].countRows > 0
      ensures WithinLimits(rest[i..j + 1])
    {
      assert rest[i..j] == pending[k + i..k + j] && rest[i..j + 1] == pending[k + i..k + j + 1];
      assert pending[k + j].countRows > 0;
    }
  }

  lemma PassableHead(pending: seq<Fragment>)
    requires Passable(pending) && LiveRows(pending) > 0
    ensures HeadFits(pending)
  {
    var first := FirstLive(pending);
    assert pending[..|pending|] == pending;
    FirstLiveSplits(pending, |pending|);
    FirstLiveSplits(pending, first);
    FirstLiveSplits(pending, first + 1);
    assert pending[..first + 1][..first] == pending[..first];
    assert pending[0..first] == pending[..first] && pending[0..first + 1] == pending[..first + 1];
    assert LiveRows(pending[0..first]) == 0 && pending[first].countRows > 0;
  }

  /** A passable backlog drains, within as many commits as the bound allows. */
  lemma {:induction false} PassableDrains(pending: seq<Fragment>, slots: int)
    requires Passable(pending) && slots >= CommitBound(pending)
    ensures Drainable(pending, slots)
    decreases |pending|
  {
    hide Passable, HeadFits, LiveRows, PhysicalRows, ContentBytesOf, WithinLimits;
    if LiveRows(pending) > 0 {
      PassableHead(pending);
      FitTakesHead(pending);
      var k := Fit(pending);
      var rest := pending[k..];
      PassableRest(pending, k);
      if LiveRows(rest) > 0 {
        PassableHead(rest);
        FitTakesHead(rest);
        var k1 := Fit(rest);
        PassableRest(rest, k1);
        RestNonEmpty(rest);
        FrontAndRest(pending, k, k1);
        RowsDrop(PhysicalRows(pending), PhysicalRows(rest[k1..]));
        BytesDrop(ContentBytesOf(pending), ContentBytesOf(rest[k1..]));
        PassableDrains(rest[k1..], slots - 2);
        assert RestDrains(rest, slots - 1);
      }
      assert Drainable(rest, slots - 1);
      assert RestDrains(pending, slots);
    }
  }

  lemma RestNonEmpty(rest: seq<Fragment>)
    requires LiveRows(rest) > 0
    ensures rest != []
  {
  }

  lemma PartFits(fs: seq<Fragment>, i: nat, j: nat)
    requires i <= j <= |fs| && WithinLimits(fs[..j])
    ensures WithinLimits(fs[i..j])
  {
    PrefixSums(fs, i, j);
  }

  lemma LiveAfter(fs: seq<Fragment>, i: nat)
    requires i <= |fs| && LiveRows(fs[i..]) > 0
    ensures LiveRows(fs) > 0
  {
    LiveSplits(fs, i);
  }

  /** A fragment over a limit with live rows in it or behind it is never passed. */
  lemma {:induction false} OversizeBlocks(pending: seq<Fragment>, i: nat, slots: int)
    requires i < |pending| && !WithinLimits(pending[i..i + 1]) && LiveRows(pending[i..]) > 0
    ensures !Drainable(pending, slots)
    decreases |pending|
  {
    hide LiveRows, WithinLimits, HeadFits, Fit;
    LiveAfter(pending, i);
    if HeadFits(pending) {
      FitTakesHead(pending);
      var k := Fit(pending);
      if i < k {
        FitPartFits(pending, i, i + 1);
      } else {
        assert pending[k..][i - k..i - k + 1] == pending[i..i + 1] && pending[k..][i - k..] == pending[i..];
        OversizeBlocks(pending[k..], i - k, slots - 1);
      }
    }
  }

  lemma FitPartFits(pending: seq<Fragment>, i: nat, j: nat)
    requires i <= j <= Fit(pending)
    ensures WithinLimits(pending[i..j])
  {
    assert WithinLimits(pending[..j]);
    PartFits(pending, i, j);
  }

  /** Deleted rows alone, twice as many as a run may take, ahead of live ones are never passed either. */
  lemma {:induction false} DeadStretchBlocks(pending: seq<Fragment>, i: nat, j: nat, slots: int)
    requires i <= j <= |pending| && LiveRows(pending[i..j]) == 0 && LiveRows(pending[j..]) > 0
    requires PhysicalRows(pending[i..j]) > 2 * MAX_ROWS
    ensures !Drainable(pending, slots)
    decreases |pending|
  {
    hide LiveRows, WithinLimits, HeadFits, Fit, PhysicalRows;
    LiveAfter(pending, j);
    if HeadFits(pending) {
      FitTakesHead(pending);
      var k := Fit(pending);
      var rest := pending[k..];
      if k <= i {
        assert rest[i - k..j - k] == pending[i..j] && rest[j - k..] == pending[j..];
        DeadStretchBlocks(rest, i - k, j - k, slots - 1);
      } else if j <= k {
        StretchFits(pending, i, j);
      } else {
        StretchFits(pending, i, k);
        assert rest[..j - k] == pending[k..j] && rest[j - k..] == pending[j..];
        Halves(pending, i, k, j);
        LiveAfter(rest, j - k);
        DeadHead(rest, j - k);
        assert !Drainable(rest, slots - 1);
      }
    }
  }

  lemma StretchFits(pending: seq<Fragment>, i: nat, j: nat)
    requires i <= j <= Fit(pending)
    ensures PhysicalRows(pending[i..j]) <= MAX_ROWS
  {
    FitPartFits(pending, i, j);
  }

  lemma Halves(fs: seq<Fragment>, i: nat, k: nat, j: nat)
    requires i <= k <= j <= |fs|
    ensures PhysicalRows(fs[i..j]) == PhysicalRows(fs[i..k]) + PhysicalRows(fs[k..j])
    ensures LiveRows(fs[i..j]) == LiveRows(fs[i..k]) + LiveRows(fs[k..j])
  {
    PrefixSums(fs, i, j);
    PrefixSums(fs, i, k);
    PrefixSums(fs, k, j);
  }

  /** More deleted rows in front than a run may take. */
  lemma DeadHead(pending: seq<Fragment>, n: nat)
    requires n <= |pending| && LiveRows(pending[..n]) == 0 && PhysicalRows(pending[..n]) > MAX_ROWS
    ensures !HeadFits(pending)
  {
    FirstLiveSplits(pending, n);
    if FirstLive(pending) < |pending| { PrefixSums(pending, n, FirstLive(pending) + 1); }
  }
}
