/** Bounded version retention: which versions one pass deletes, what it must leave alone whatever the
    engine did, and how repeated bounded passes meet one unbounded pass. */
module Retention {
  import opened Basics
  import opened Sorting

  const MAX_VERSIONS := 100_000
  const MAX_PROTECTED := 256

  datatype Info = Info(number: nat, timestampMs: int)

  /** What a reader sees of the table: the version it opens, the newest one, the listed versions, the
      tags, and the protected state (fragments, indices and schema) behind each version. */
  datatype Store = Store(version: nat, latest: nat, versions: seq<Info>, tags: map<string, nat>,
      states: map<nat, string>)

  datatype Error =
    | Lease | BadVersion | FutureCutoff | BadBound | Engine | Changed | TooManyVersions | TooManyProtected
    | Unreadable | NotAdmitted | DeletionFailed | ProtectedChanged

  type Result<+T> = Basics.Result<T, Error>

  /** What happens around a pass. Nothing relates `after` to the store before the pass. */
  datatype World = World(
    nowMs: int,
    leaseAtStart: bool,
    engineOk: bool,
    measured: bool,
    latestAtAdmission: nat,
    leaseAtAdmission: bool,
    admitted: bool,
    latestAtDeletion: nat,
    leaseAtDeletion: bool,
    deletionRaised: bool,
    after: Store,
    leaseAtEnd: bool)

  datatype Receipt = Receipt(deleted: seq<nat>, eligibleRemaining: nat)

  // ---------- eligible and protected versions ----------

  ghost predicate DistinctNumbers(versions: seq<Info>) {
    forall i, j :: 0 <= i < j < |versions| ==> versions[i].number != versions[j].number
  }

  ghost predicate Listed(versions: seq<Info>, n: nat) {
    exists v :: v in versions && v.number == n
  }

  function Numbers(versions: seq<Info>): (r: set<nat>)
    ensures forall n :: n in r <==> Listed(versions, n)
  {
    set v | v in versions :: v.number
  }

  ghost predicate NamedByTag(s: Store, n: nat) {
    exists name :: name in s.tags && s.tags[name] == n
  }

  function Tagged(s: Store): (r: set<nat>)
    ensures forall n :: n in r <==> NamedByTag(s, n)
  {
    set name | name in s.tags :: s.tags[name]
  }

  ghost predicate ListedSince(s: Store, cutoff: int, n: nat) {
    exists v :: v in s.versions && v.number == n && v.timestampMs >= cutoff
  }

  ghost predicate ListedBefore(s: Store, cutoff: int, n: nat) {
    exists v :: v in s.versions && v.number == n && v.timestampMs < cutoff
  }

  /** The current version, tagged versions, and everything at or after the cutoff. */
  function Protected(s: Store, cutoff: int): (r: set<nat>)
    ensures forall n :: n in r <==> n == s.version || NamedByTag(s, n) || ListedSince(s, cutoff, n)
  {
    {s.version} + Tagged(s) + set v | v in s.versions && v.timestampMs >= cutoff :: v.number
  }

  /** The versions a pass may delete. */
  function Eligible(s: Store, cutoff: int): (r: set<nat>)
    ensures forall n :: n in r <==> ListedBefore(s, cutoff, n) && n != s.version && !NamedByTag(s, n)
  {
    set v | v in s.versions && v.timestampMs < cutoff && v.number != s.version && v.number !in Tagged(s) :: v.number
  }

  predicate AtMost(m: nat, n: nat) {
    m <= n
  }

  ghost predicate Ascending(ns: seq<nat>) {
    forall i, j :: 0 <= i < j < |ns| ==> ns[i] < ns[j]
  }

  function Elements(ns: seq<nat>): (r: set<nat>)
    ensures forall n :: n in r <==> n in ns
  {
    set n | n in ns
  }

  ghost predicate NoneTwice(ns: seq<nat>) {
    KeysDistinct((n: nat) => n, ns)
  }

  lemma SortAscends(ns: seq<nat>)
    requires NoneTwice(ns)
    ensures Ascending(Sort(AtMost, ns)) && Elements(Sort(AtMost, ns)) == Elements(ns) && |Sort(AtMost, ns)| == |ns|
  {
    SortKeeps(AtMost, ns);
    SortSorts(AtMost, ns);
    KeysPermuted((n: nat) => n, ns, Sort(AtMost, ns));
  }

  /** Ascending lists with the same elements are the same list. */
  lemma AscendingDetermined(a: seq<nat>, b: seq<nat>)
    requires Ascending(a) && Ascending(b) && Elements(a) == Elements(b)
    ensures a == b
  {
    assert forall x :: (x in a <==> x in Elements(a)) && (x in b <==> x in Elements(b));
    SameMembers((n: nat) => n, a, b);
    SortedUnique(AtMost, a, b);
  }

  lemma ClassifyNext(s: Store, cutoff: int, k: nat)
    requires DistinctNumbers(s.versions) && k < |s.versions|
    ensures var v, here, next := s.versions[k], s.(versions := s.versions[..k]), s.(versions := s.versions[..k + 1]);
      && Protected(next, cutoff) == Protected(here, cutoff) + (if v.timestampMs >= cutoff then {v.number} else {})
      && Eligible(next, cutoff) == Eligible(here, cutoff)
        + (if v.timestampMs < cutoff && v.number !in Protected(here, cutoff) then {v.number} else {})
      && v.number !in Eligible(here, cutoff)
  {
    var v, here, next := s.versions[k], s.(versions := s.versions[..k]), s.(versions := s.versions[..k + 1]);
    assert next.versions == here.versions + [v];
    assert v.number !in Numbers(here.versions);
    forall u
      ensures u in next.versions <==> u in here.versions || u == v
    {
    }
    assert forall u :: u in here.versions ==> u.number in Numbers(here.versions);
    forall n
      ensures n in Eligible(next, cutoff) <==>
        || n in Eligible(here, cutoff)
        || (n == v.number && v.timestampMs < cutoff && v.number !in Protected(here, cutoff))
    {
      if n in Eligible(next, cutoff) {
        var u :| u in next.versions && u.number == n && u.timestampMs < cutoff;
      }
    }
    assert v.number !in Eligible(here, cutoff);
    hide Eligible, Numbers, Tagged;
  }

  lemma SameNumber(versions: seq<Info>, u: Info, v: Info)
    requires DistinctNumbers(versions) && u in versions && v in versions
    ensures u.number == v.number ==> u == v
  {
  }

  /** Splits the listed versions into protected ones and deletable ones, in one pass over the list. */
  method Classify(s: Store, cutoff: int) returns (guarded: set<nat>, eligible: seq<nat>)
    requires DistinctNumbers(s.versions)
    ensures guarded == Protected(s, cutoff)
    ensures Elements(eligible) == Eligible(s, cutoff)
    ensures forall i, j :: 0 <= i < j < |eligible| ==> eligible[i] != eligible[j]
  {
    guarded, eligible := {s.version} + Tagged(s), [];
    for k := 0 to |s.versions|
      invariant guarded == Protected(s.(versions := s.versions[..k]), cutoff)
      invariant Elements(eligible) == Eligible(s.(versions := s.versions[..k]), cutoff)
      invariant forall i, j :: 0 <= i < j < |eligible| ==> eligible[i] != eligible[j]
    {
      var v := s.versions[k];
      ClassifyNext(s, cutoff, k);
      if v.timestampMs >= cutoff {
        guarded := guarded + {v.number};
      }
      if v.number !in guarded && v.timestampMs < cutoff {
        assert v.number !in Elements(eligible);
        eligible := eligible + [v.number];
      }
    }
    assert s.versions[..|s.versions|] == s.versions;
  }

  // ---------- one pass ----------

  /** The eligible versions, lowest number first, cut to the bound if there is one. */
  ghost predicate IsChoice(s: Store, cutoff: int, bound: Option<int>, chosen: seq<nat>) {
    exists all :: Ascending(all) && Elements(all) == Eligible(s, cutoff) &&
      match bound
      case None => Elements(chosen) == Elements(all) && |chosen| == |all|
      case Some(n) => n >= 1 && chosen == all[..if n < |all| then n else |all|]
  }

  predicate StatesKept(guarded: set<nat>, before: map<nat, string>, after: map<nat, string>) {
    forall v | v in guarded :: v in before && v in after && after[v] == before[v]
  }

  /** Everything a pass insists on before it deletes. */
  ghost predicate Permitted(s: Store, expected: int, cutoff: int, bound: Option<int>, w: World) {
    && w.leaseAtStart && expected >= 1 && cutoff <= w.nowMs && (bound.Some? ==> 1 <= bound.value <= 128)
    && w.engineOk && w.measured && s.version == s.latest == expected && |s.versions| <= MAX_VERSIONS
    && w.latestAtAdmission == expected && w.leaseAtAdmission
    && |Protected(s, cutoff)| <= MAX_PROTECTED && Protected(s, cutoff) <= s.states.Keys
    && w.admitted && w.latestAtDeletion == expected && w.leaseAtDeletion
  }

  /** A fresh reader finds the store without these versions and otherwise as it was. */
  ghost predicate Settled(s: Store, cutoff: int, chosen: seq<nat>, w: World) {
    && (chosen != [] ==> !w.deletionRaised)
    && Numbers(w.after.versions) == Numbers(s.versions) - Elements(chosen)
    && w.after.version == w.after.latest == s.version && w.after.tags == s.tags
    && (forall v :: v in Protected(s, cutoff) ==>
          v in s.states && v in w.after.states && s.states[v] == w.after.states[v])
    && w.leaseAtEnd
  }

  lemma ChoiceSame(s: Store, cutoff: int, bound: Option<int>, a: seq<nat>, b: seq<nat>)
    requires IsChoice(s, cutoff, bound, a) && IsChoice(s, cutoff, bound, b)
    ensures Elements(a) == Elements(b) && (a == [] <==> b == [])
  {
    var x :| Ascending(x) && Elements(x) == Eligible(s, cutoff) &&
      match bound
      case None => Elements(a) == Elements(x) && |a| == |x|
      case Some(n) => n >= 1 && a == x[..if n < |x| then n else |x|];
    var y :| Ascending(y) && Elements(y) == Eligible(s, cutoff) &&
      match bound
      case None => Elements(b) == Elements(y) && |b| == |y|
      case Some(n) => n >= 1 && b == y[..if n < |y| then n else |y|];
    AscendingDetermined(x, y);
  }

  lemma SettledSame(s: Store, cutoff: int, bound: Option<int>, a: seq<nat>, b: seq<nat>, w: World)
    requires IsChoice(s, cutoff, bound, a) && IsChoice(s, cutoff, bound, b)
    ensures Settled(s, cutoff, a, w) <==> Settled(s, cutoff, b, w)
  {
    ChoiceSame(s, cutoff, bound, a, b);
  }

  /** One pass: it succeeds exactly when it was permitted and a fresh reader finds the chosen versions gone
      and nothing else changed; then the receipt accounts for all eligible versions. */
  method Prune(s: Store, expected: int, cutoff: int, bound: Option<int>, w: World) returns (r: Result<Receipt>)
    requires DistinctNumbers(s.versions)
    ensures r.Success? <==>
      && Permitted(s, expected, cutoff, bound, w)
      && exists chosen :: IsChoice(s, cutoff, bound, chosen) && Settled(s, cutoff, chosen, w)
    ensures r.Success? ==>
      && IsChoice(s, cutoff, bound, r.value.deleted) && Settled(s, cutoff, r.value.deleted, w)
      && Elements(r.value.deleted) <= Eligible(s, cutoff) && Elements(r.value.deleted) !! Protected(s, cutoff)
      && |r.value.deleted| + r.value.eligibleRemaining == |Eligible(s, cutoff)|
    ensures r.Success? ==>
      && s.version !in r.value.deleted
      && (forall name :: name in s.tags ==> s.tags[name] !in r.value.deleted)
      && (forall n :: n in r.value.deleted ==> ListedBefore(s, cutoff, n) && !Listed(w.after.versions, n))
      && (forall n :: n !in r.value.deleted ==> (Listed(w.after.versions, n) <==> Listed(s.versions, n)))
    ensures r.Success? ==>
      forall v :: v in Protected(s, cutoff) ==>
        v in s.states && v in w.after.states && s.states[v] == w.after.states[v]
  {
    if !w.leaseAtStart {
      return Failure(Lease);
    }
    if expected < 1 {
      return Failure(BadVersion);
    }
    if cutoff > w.nowMs {
      return Failure(FutureCutoff);
    }
    if bound.Some? && !(1 <= bound.value <= 128) {
      return Failure(BadBound);
    }
    if !w.engineOk || !w.measured {
      return Failure(Engine);
    }
    if s.version != expected || s.latest != expected {
      return Failure(Changed);
    }
    if |s.versions| > MAX_VERSIONS {
      return Failure(TooManyVersions);
    }
    hide *;
    var guarded, versions, eligibleCount := Choose(s, cutoff, bound);
    AnyChoice(s, cutoff, bound, versions, w);
    PermittedWhen(s, expected, cutoff, bound, w);
    SettledWhen(s, cutoff, versions, w);
    var retained := Numbers(s.versions) - Elements(versions);
    if w.latestAtAdmission != expected || !w.leaseAtAdmission {
      return Failure(Changed);
    }
    if |guarded| > MAX_PROTECTED {
      return Failure(TooManyProtected);
    }
    if exists v | v in guarded :: v !in s.states {
      return Failure(Unreadable);
    }
    if !w.admitted {
      return Failure(NotAdmitted);
    }
    if w.latestAtDeletion != expected || !w.leaseAtDeletion {
      return Failure(Changed);
    }
    if versions != [] && w.deletionRaised {
      return Failure(DeletionFailed);
    }
    var remaining := Numbers(w.after.versions);
    if w.after.version != expected || w.after.latest != expected || w.after.tags != s.tags
       || remaining != retained || Elements(versions) * remaining != {} || !w.leaseAtEnd {
      return Failure(Changed);
    }
    if !StatesKept(guarded, s.states, w.after.states) {
      return Failure(ProtectedChanged);
    }
    DeletedMeans(s, cutoff, versions, w);
    return Success(Receipt(versions, eligibleCount - |versions|));
  }

  /** What was deleted, version by version. */
  lemma DeletedMeans(s: Store, cutoff: int, deleted: seq<nat>, w: World)
    requires Elements(deleted) <= Eligible(s, cutoff) && Settled(s, cutoff, deleted, w)
    ensures s.version !in deleted && forall name :: name in s.tags ==> s.tags[name] !in deleted
    ensures forall n :: n in deleted ==> ListedBefore(s, cutoff, n) && !Listed(w.after.versions, n)
    ensures forall n :: n !in deleted ==> (Listed(w.after.versions, n) <==> Listed(s.versions, n))
    ensures forall v :: v in Protected(s, cutoff) ==>
      v in s.states && v in w.after.states && s.states[v] == w.after.states[v]
  {
    forall n | n in deleted
      ensures n in Eligible(s, cutoff) && n !in Numbers(w.after.versions)
    {
      assert n in Elements(deleted);
    }
    forall name | name in s.tags
      ensures s.tags[name] !in deleted
    {
      assert NamedByTag(s, s.tags[name]);
    }
    forall n | n !in deleted
      ensures n in Numbers(w.after.versions) <==> n in Numbers(s.versions)
    {
      assert n !in Elements(deleted);
    }
  }

  /** The versions to delete, and how many are eligible in all. */
  method Choose(s: Store, cutoff: int, bound: Option<int>)
      returns (guarded: set<nat>, versions: seq<nat>, eligibleCount: nat)
    requires DistinctNumbers(s.versions) && (bound.Some? ==> bound.value >= 1)
    ensures guarded == Protected(s, cutoff) && IsChoice(s, cutoff, bound, versions)
    ensures Elements(versions) <= Eligible(s, cutoff) && Elements(versions) !! Protected(s, cutoff)
    ensures eligibleCount == |Eligible(s, cutoff)| >= |versions|
  {
    guarded, versions := Classify(s, cutoff);
    eligibleCount := |versions|;
    SortAscends(versions);
    DistinctCount(versions);
    ghost var all := Sort(AtMost, versions);
    if bound.Some? {
      var sorted := Sort(AtMost, versions);
      versions := sorted[..if bound.value < |sorted| then bound.value else |sorted|];
    }
    assert IsChoice(s, cutoff, bound, versions);
    ChosenEligible(s, cutoff, all, versions);
  }

  lemma AnyChoice(s: Store, cutoff: int, bound: Option<int>, chosen: seq<nat>, w: World)
    requires IsChoice(s, cutoff, bound, chosen)
    ensures (exists other :: IsChoice(s, cutoff, bound, other) && Settled(s, cutoff, other, w)) <==>
      Settled(s, cutoff, chosen, w)
  {
    hide IsChoice, Settled;
    forall other | IsChoice(s, cutoff, bound, other)
      ensures Settled(s, cutoff, other, w) <==> Settled(s, cutoff, chosen, w)
    {
      SettledSame(s, cutoff, bound, chosen, other, w);
    }
  }

  lemma SettledWhen(s: Store, cutoff: int, chosen: seq<nat>, w: World)
    ensures var remaining := Numbers(w.after.versions);
      Settled(s, cutoff, chosen, w) <==>
      && (chosen != [] ==> !w.deletionRaised)
      && remaining == Numbers(s.versions) - Elements(chosen) && Elements(chosen) * remaining == {}
      && w.after.version == s.version && w.after.latest == s.version && w.after.tags == s.tags
      && StatesKept(Protected(s, cutoff), s.states, w.after.states) && w.leaseAtEnd
  {
  }

  lemma PermittedWhen(s: Store, expected: int, cutoff: int, bound: Option<int>, w: World)
    ensures Permitted(s, expected, cutoff, bound, w) <==>
      && w.leaseAtStart && expected >= 1 && cutoff <= w.nowMs && (bound.Some? ==> 1 <= bound.value <= 128)
      && w.engineOk && w.measured && s.version == expected && s.latest == expected && |s.versions| <= MAX_VERSIONS
      && w.latestAtAdmission == expected && w.leaseAtAdmission
      && |Protected(s, cutoff)| <= MAX_PROTECTED && (forall v :: v in Protected(s, cutoff) ==> v in s.states)
      && w.admitted && w.latestAtDeletion == expected && w.leaseAtDeletion
  {
  }

  lemma {:induction false} DistinctCount(ns: seq<nat>)
    requires forall i, j :: 0 <= i < j < |ns| ==> ns[i] != ns[j]
    ensures |Elements(ns)| == |ns|
  {
    if ns != [] {
      DistinctCount(ns[1..]);
      assert ns == [ns[0]] + ns[1..];
      assert Elements(ns) == {ns[0]} + Elements(ns[1..]) && ns[0] !in Elements(ns[1..]);
    }
  }

  lemma ChosenEligible(s: Store, cutoff: int, all: seq<nat>, chosen: seq<nat>)
    requires DistinctNumbers(s.versions)
    requires Elements(all) == Eligible(s, cutoff) && Elements(chosen) <= Elements(all)
    ensures Elements(chosen) <= Eligible(s, cutoff)
    ensures Elements(chosen) !! Protected(s, cutoff)
  {
    forall n | n in Eligible(s, cutoff)
      ensures n !in Protected(s, cutoff)
    {
      var v :| v in s.versions && v.number == n && v.timestampMs < cutoff && n != s.version && n !in Tagged(s);
      forall u | u in s.versions && u.timestampMs >= cutoff
        ensures u.number != n
      {
        SameNumber(s.versions, u, v);
      }
    }
  }

  // ---------- repeated passes ----------

  /** The eligible versions of a store, oldest first. */
  ghost predicate EligibleList(s: Store, cutoff: int, all: seq<nat>) {
    Ascending(all) && Elements(all) == Eligible(s, cutoff)
  }

  /** A successful bounded pass. Listing entries are immutable: a pass only ever removes some. */
  ghost predicate Pass(before: Store, after: Store, cutoff: int, bound: nat, chosen: seq<nat>) {
    && IsChoice(before, cutoff, Some(bound), chosen)
    && Numbers(after.versions) == Numbers(before.versions) - Elements(chosen)
    && after.version == before.version && after.tags == before.tags
    && DistinctNumbers(before.versions)
    && forall v :: v in after.versions ==> v in before.versions
  }

  /** A bounded pass that succeeded is one, as long as the listing of a version never changes. */
  lemma SettledIsPass(s: Store, cutoff: int, bound: nat, chosen: seq<nat>, w: World)
    requires DistinctNumbers(s.versions) && IsChoice(s, cutoff, Some(bound), chosen) && Settled(s, cutoff, chosen, w)
    requires forall v :: v in w.after.versions ==> v in s.versions
    ensures Pass(s, w.after, cutoff, bound, chosen)
  {
  }

  ghost predicate Passes(ss: seq<Store>, chosen: seq<seq<nat>>, cutoff: int, bound: nat) {
    |ss| == |chosen| + 1 &&
    forall i :: 0 <= i < |chosen| ==> Pass(ss[i], ss[i + 1], cutoff, bound, chosen[i])
  }

  function Min(a: nat, b: nat): nat {
    if a < b then a else b
  }

  lemma AscendingSplit(all: seq<nat>, k: nat)
    requires Ascending(all) && k <= |all|
    ensures Ascending(all[k..]) && Elements(all[k..]) == Elements(all) - Elements(all[..k])
    ensures Elements(all[..k]) <= Elements(all)
  {
    forall n
      ensures n in Elements(all[k..]) <==> n in Elements(all) - Elements(all[..k])
    {
      if n in all[k..] {
        var i :| 0 <= i < |all| - k && all[k..][i] == n;
        assert all[k + i] == n;
        assert forall j :: 0 <= j < k ==> all[..k][j] < n;
      }
      if n in all && n !in all[..k] {
        var i :| 0 <= i < |all| && all[i] == n;
        assert forall j :: 0 <= j < k ==> all[j] == all[..k][j] && all[j] in all[..k];
        assert all[k..][i - k] == n;
      }
    }
  }

  /** A pass takes its choice off the front of the eligible list and leaves the rest of it eligible. */
  lemma PassDrops(before: Store, after: Store, cutoff: int, bound: nat, chosen: seq<nat>, all: seq<nat>)
    requires Pass(before, after, cutoff, bound, chosen) && EligibleList(before, cutoff, all)
    ensures bound >= 1 && chosen == all[..Min(bound, |all|)]
    ensures EligibleList(after, cutoff, all[Min(bound, |all|)..])
  {
    var picked :| Ascending(picked) && Elements(picked) == Eligible(before, cutoff) && bound >= 1 &&
      chosen == picked[..if bound < |picked| then bound else |picked|];
    AscendingDetermined(picked, all);
    AscendingSplit(all, Min(bound, |all|));
    forall n
      ensures n in Eligible(after, cutoff) <==> n in Eligible(before, cutoff) && n !in Elements(chosen)
    {
      if n in Eligible(after, cutoff) {
        var v :| v in after.versions && v.number == n && v.timestampMs < cutoff;
        assert v in before.versions && n in Numbers(after.versions);
      }
      if n in Eligible(before, cutoff) && n !in Elements(chosen) {
        var v :| v in before.versions && v.number == n && v.timestampMs < cutoff;
        assert n in Numbers(after.versions);
        var u :| u in after.versions && u.number == n;
        SameNumber(before.versions, u, v);
      }
    }
  }

  lemma MinStep(n: nat, bound: nat, len: nat)
    ensures Min(n * bound, len) + Min(bound, len - Min(n * bound, len)) == Min((n + 1) * bound, len)
  {
    assert (n + 1) * bound == n * bound + bound;
  }

  /** Store s is the first one with the `cut` oldest eligible versions deleted. */
  ghost predicate Cut(first: Store, s: Store, cutoff: int, all: seq<nat>, cut: nat)
    requires cut <= |all|
  {
    && EligibleList(s, cutoff, all[cut..])
    && Numbers(s.versions) == Numbers(first.versions) - Elements(all[..cut])
    && s.version == first.version && s.tags == first.tags
  }

  lemma CutStep(first: Store, s: Store, t: Store, cutoff: int, bound: nat, chosen: seq<nat>, all: seq<nat>, cut: nat)
    requires cut <= |all| && Cut(first, s, cutoff, all, cut) && Pass(s, t, cutoff, bound, chosen)
    ensures var next := cut + Min(bound, |all| - cut);
      Cut(first, t, cutoff, all, next) && chosen == all[cut..next]
  {
    hide Elements, EligibleList, Numbers, IsChoice, DistinctNumbers;
    var step := Min(bound, |all| - cut);
    PassDrops(s, t, cutoff, bound, chosen, all[cut..]);
    CutFurther(all, cut, step);
  }

  lemma CutFurther(all: seq<nat>, cut: nat, step: nat)
    requires cut + step <= |all|
    ensures all[cut..][step..] == all[cut + step..] && all[cut..][..step] == all[cut..cut + step]
    ensures Elements(all[..cut + step]) == Elements(all[..cut]) + Elements(all[cut..cut + step])
  {
    assert all[..cut + step] == all[..cut] + all[cut..cut + step];
  }

  /** After n passes exactly the n*bound oldest eligible versions are gone, in that order. */
  lemma {:induction false} PassesPrefix(ss: seq<Store>, chosen: seq<seq<nat>>, cutoff: int, bound: nat, all: seq<nat>,
      n: nat)
    requires Passes(ss, chosen, cutoff, bound) && n <= |chosen|
    requires EligibleList(ss[0], cutoff, all)
    ensures Cut(ss[0], ss[n], cutoff, all, Min(n * bound, |all|))
    ensures n < |chosen| ==> chosen[n] == all[Min(n * bound, |all|)..Min((n + 1) * bound, |all|)]
  {
    if n == 0 {
      assert all[0..] == all && Elements(all[..0]) == {};
    } else {
      PassesPrefix(ss, chosen, cutoff, bound, all, n - 1);
      assert Pass(ss[n - 1], ss[n], cutoff, bound, chosen[n - 1]);
      CutStep(ss[0], ss[n - 1], ss[n], cutoff, bound, chosen[n - 1], all, Min((n - 1) * bound, |all|));
      MinStep(n - 1, bound, |all|);
    }
    if n < |chosen| {
      assert Pass(ss[n], ss[n + 1], cutoff, bound, chosen[n]);
      CutStep(ss[0], ss[n], ss[n + 1], cutoff, bound, chosen[n], all, Min(n * bound, |all|));
      MinStep(n, bound, |all|);
    }
  }

  lemma CutFacts(first: Store, s: Store, cutoff: int, all: seq<nat>, cut: nat)
    requires DistinctNumbers(first.versions) && EligibleList(first, cutoff, all)
    requires cut <= |all| && Cut(first, s, cutoff, all, cut)
    ensures cut == |all| ==> Numbers(s.versions) == Numbers(first.versions) - Eligible(first, cutoff)
    ensures cut < |all| ==> Eligible(s, cutoff) != {}
    ensures Protected(first, cutoff) * Numbers(first.versions) <= Numbers(s.versions)
    ensures |Numbers(first.versions) - Numbers(s.versions)| + |Eligible(s, cutoff)| == |all|
    ensures |all| == |Eligible(first, cutoff)|
  {
    hide Listed, NamedByTag, ListedSince, ListedBefore, Eligible, Protected, Numbers;
    AscendingCount(all);
    AscendingSplit(all, cut);
    AscendingCount(all[cut..]);
    AscendingPrefix(all, cut);
    AscendingCount(all[..cut]);
    assert all[..|all|] == all;
    ChosenEligible(first, cutoff, all, all[..cut]);
    EligibleListed(first, cutoff);
    assert Numbers(first.versions) - Numbers(s.versions) == Elements(all[..cut]);
    if cut < |all| { assert all[cut..][0] in Elements(all[cut..]); }
  }

  lemma AscendingPrefix(all: seq<nat>, k: nat)
    requires Ascending(all) && k <= |all|
    ensures Ascending(all[..k])
  {
  }

  lemma EligibleListed(s: Store, cutoff: int)
    ensures Eligible(s, cutoff) <= Numbers(s.versions)
  {
  }

  /** len / bound, rounded up. */
  function Ceiling(len: nat, bound: nat): nat
    requires bound >= 1
  {
    (len + bound - 1) / bound
  }

  /** Bounded passes at one cutoff meet the unbounded pass after ceil(eligible / bound) of them and no
      sooner; the current version, tagged versions and versions past the cutoff are still there. */
  lemma PassesMeetUnbounded(ss: seq<Store>, chosen: seq<seq<nat>>, cutoff: int, bound: nat, n: nat)
    requires Passes(ss, chosen, cutoff, bound) && bound >= 1 && n <= |chosen| && DistinctNumbers(ss[0].versions)
    ensures n >= Ceiling(|Eligible(ss[0], cutoff)|, bound) ==>
      Numbers(ss[n].versions) == Numbers(ss[0].versions) - Eligible(ss[0], cutoff)
    ensures n < Ceiling(|Eligible(ss[0], cutoff)|, bound) ==> Eligible(ss[n], cutoff) != {}
    ensures Protected(ss[0], cutoff) * Numbers(ss[0].versions) <= Numbers(ss[n].versions)
    ensures forall name :: name in ss[0].tags && Listed(ss[0].versions, ss[0].tags[name]) ==>
      Listed(ss[n].versions, ss[0].tags[name])
    ensures |Numbers(ss[0].versions) - Numbers(ss[n].versions)| + |Eligible(ss[n], cutoff)| == |Eligible(ss[0], cutoff)|
  {
    var listed := ListEligible(ss[0], cutoff);
    var all := Sort(AtMost, listed);
    SortAscends(listed);
    PassesPrefix(ss, chosen, cutoff, bound, all, n);
    CeilingDecides(n, bound, |all|);
    CutFacts(ss[0], ss[n], cutoff, all, Min(n * bound, |all|));
    forall name | name in ss[0].tags && Listed(ss[0].versions, ss[0].tags[name])
      ensures Listed(ss[n].versions, ss[0].tags[name])
    {
      assert NamedByTag(ss[0], ss[0].tags[name]);
      assert ss[0].tags[name] in Protected(ss[0], cutoff) * Numbers(ss[0].versions);
    }
  }

  lemma AscendingCount(ns: seq<nat>)
    requires Ascending(ns)
    ensures |Elements(ns)| == |ns|
  {
    DistinctCount(ns);
  }

  lemma CeilingDecides(n: nat, bound: nat, len: nat)
    requires bound >= 1
    ensures n >= Ceiling(len, bound) <==> n * bound >= len
  {
    var q, r := (len + bound - 1) / bound, (len + bound - 1) % bound;
    assert len + bound - 1 == bound * q + r;
    if n >= q {
      FactorOrder(q, n, bound);
    } else {
      FactorOrder(n + 1, q, bound);
      assert (n + 1) * bound == n * bound + bound;
    }
  }

  lemma FactorOrder(a: nat, b: nat, m: nat)
    requires a <= b
    ensures a * m <= b * m
  {
  }

  lemma {:induction false} ListEligible(s: Store, cutoff: int) returns (eligible: seq<nat>)
    requires DistinctNumbers(s.versions)
    ensures Elements(eligible) == Eligible(s, cutoff)
    ensures forall i, j :: 0 <= i < j < |eligible| ==> eligible[i] != eligible[j]
    decreases |s.versions|
  {
    var k := |s.versions|;
    if k == 0 {
      eligible := [];
    } else {
      var here := s.(versions := s.versions[..k - 1]);
      eligible := ListEligible(here, cutoff);
      assert s.versions[..k] == s.versions;
      ClassifyNext(s, cutoff, k - 1);
      var v := s.versions[k - 1];
      if v.timestampMs < cutoff && v.number !in Protected(here, cutoff) {
        assert v.number !in Elements(eligible);
        eligible := eligible + [v.number];
      }
    }
  }
}
