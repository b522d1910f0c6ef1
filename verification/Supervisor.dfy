/** One supervised operation: a run in which any step may raise, its cleanup, and the verdict. */
module Supervisor {
  import opened Basics

  const GIB := 1024 * 1024 * 1024

  /** A step that yields a value or raises. */
  datatype Read<+T> = Got(value: T) | Raised(error: string)

  /** A step that yields nothing: the error it raised, if any. */
  type Step = Option<string>

  datatype Sample = Sample(
    swapMaxZero: bool,
    jobSwap: nat,
    jobSwapPeak: nat,
    jobZswap: nat,
    supervisorSwap: nat,
    rss: nat,
    available: nat,
    oomKills: nat,
    jobOom: nat,
    jobOomKill: nat)

  /** One sampling and the check that follows it: what was read, whether the deadline had passed by
      then, and whether the containment test raised. */
  datatype Look = Look(sample: Read<Sample>, late: bool, containment: Step)

  /** One round of the polling loop; `exited` is the command's exit code once it has one. */
  datatype Poll = Poll(look: Look, exited: Read<Option<int>>)

  /** How every step of one operation goes. */
  datatype World = World(
    controllers: Step,
    makeGroup: Step,
    identify: Step,
    forbidSwap: Step,
    admitEmpty: Step,
    killable: Step,
    admission: Look,
    launch: Step,
    polls: seq<Poll>,
    survivors: Read<nat>,
    enumerate: Step,
    killUnseen: Step,
    populatedFirst: Read<bool>,
    populatedSecond: Read<bool>,
    killLate: Step,
    drain: Step,
    wait: Step,
    populatedLast: Read<bool>,
    final: Look,
    lastResort: Step,
    removeGroup: Step)

  datatype Incident = Incident(reason: string, phase: string, sample: Option<Sample>)

  // ---------- the limits ----------

  /** The limits a sample breaks, in the order they are listed. */
  function Reasons(s: Sample, oomBaseline: nat, late: bool): seq<string> {
    (if !s.swapMaxZero then ["job no-swap enforcement changed"] else []) +
    (if s.jobSwap > 0 || s.jobSwapPeak > 0 || s.jobZswap > 0 then ["owned job swap observed"] else []) +
    (if s.supervisorSwap > 0 then ["owned supervisor swap observed"] else []) +
    (if s.rss >= 2 * GIB then ["owned RSS limit reached"] else []) +
    (if s.available < 8 * GIB then ["host available-memory floor"] else []) +
    (if s.oomKills > oomBaseline then ["new host OOM kill"] else []) +
    (if s.jobOom > 0 || s.jobOomKill > 0 then ["job OOM event"] else []) +
    (if late then ["operation deadline"] else [])
  }

  function Join(reasons: seq<string>): string {
    if reasons == [] then "" else if |reasons| == 1 then reasons[0] else reasons[0] + "; " + Join(reasons[1..])
  }

  /** The reasons with "; " between any two. */
  lemma {:induction false} JoinMeans(a: seq<string>, b: seq<string>, x: string)
    ensures Join([]) == "" && Join([x]) == x
    ensures a != [] && b != [] ==> Join(a + b) == Join(a) + "; " + Join(b)
  {
    if |a| == 1 && b != [] {
      assert (a + b)[1..] == b;
    } else if |a| > 1 && b != [] {
      JoinMeans(a[1..], b, x);
      assert (a + b)[1..] == a[1..] + b;
      JoinAssociates(a[0] + "; ", Join(a[1..]), "; " + Join(b));
    }
  }

  lemma JoinAssociates(a: string, b: string, c: string)
    ensures a + (b + c) == a + b + c
  {
  }

  /** The sample keeps every limit, stated limit by limit. */
  predicate WithinLimits(s: Sample, oomBaseline: nat) {
    && s.swapMaxZero && s.jobSwap == 0 && s.jobSwapPeak == 0 && s.jobZswap == 0 && s.supervisorSwap == 0
    && s.rss < 2 * GIB && s.available >= 8 * GIB
    && s.oomKills <= oomBaseline && s.jobOom == 0 && s.jobOomKill == 0
  }

  lemma ReasonsDecide(s: Sample, oomBaseline: nat, late: bool)
    ensures Reasons(s, oomBaseline, late) == [] <==> WithinLimits(s, oomBaseline) && !late
  {
  }

  /** The reasons given, each with the limit it stands for. */
  lemma ReasonsSpelled(s: Sample, oomBaseline: nat, late: bool, x: string)
    ensures x in Reasons(s, oomBaseline, late) <==>
      || (x == "job no-swap enforcement changed" && !s.swapMaxZero)
      || (x == "owned job swap observed" && (s.jobSwap > 0 || s.jobSwapPeak > 0 || s.jobZswap > 0))
      || (x == "owned supervisor swap observed" && s.supervisorSwap > 0)
      || (x == "owned RSS limit reached" && s.rss >= 2_147_483_648)
      || (x == "host available-memory floor" && s.available < 8_589_934_592)
      || (x == "new host OOM kill" && s.oomKills > oomBaseline)
      || (x == "job OOM event" && (s.jobOom > 0 || s.jobOomKill > 0))
      || (x == "operation deadline" && late)
  {
  }

  // ---------- the earliest failure, by reading the steps in order ----------

  function Fault(step: Step, phase: string): Option<Incident> {
    if step.Some? then Some(Incident(step.value, phase, None)) else None
  }

  function Or(a: Option<Incident>, b: Option<Incident>): Option<Incident> {
    if a.Some? then a else b
  }

  /** The failure of one sampling: the reading, then the containment test, and only then the limits.
      `phase` labels a broken limit, `outer` an exception caught further out. */
  function LookFault(look: Look, baseline: nat, phase: string, outer: string): Option<Incident> {
    match look.sample
    case Raised(e) => Some(Incident(e, outer, None))
    case Got(s) =>
      if look.containment.Some? then Some(Incident(look.containment.value, outer, None))
      else
        var reasons := Reasons(s, baseline, look.late);
        if reasons != [] then Some(Incident(Join(reasons), phase, Some(s))) else None
  }

  function PollsFault(polls: seq<Poll>, baseline: nat, survivors: Read<nat>): Option<Incident> {
    if polls == [] then Some(Incident("guard supervisor interrupted", "operation", None))
    else
      Or(LookFault(polls[0].look, baseline, "running", "operation"),
        match polls[0].exited
        case Raised(e) => Some(Incident(e, "operation", None))
        case Got(None) => PollsFault(polls[1..], baseline, survivors)
        case Got(Some(code)) => ExitFault(code, survivors))
  }

  function ExitFault(code: int, survivors: Read<nat>): Option<Incident> {
    if code != 0 then Some(Incident("operation command failed", "operation", None))
    else match survivors
      case Raised(e) => Some(Incident(e, "operation", None))
      case Got(n) => if n > 0 then Some(Incident("owned descendants retained after command exit", "operation", None))
        else None
  }

  /** Setup up to and including the group's identity. */
  function IdentityFault(w: World): Option<Incident> {
    Or(Fault(w.controllers, "operation"), Or(Fault(w.makeGroup, "operation"), Fault(w.identify, "operation")))
  }

  function SetupFault(w: World): Option<Incident> {
    Or(IdentityFault(w),
    Or(Fault(w.forbidSwap, "operation"), Or(Fault(w.admitEmpty, "operation"), Fault(w.killable, "operation"))))
  }

  function Baseline(w: World): nat {
    if w.admission.sample.Got? then w.admission.sample.value.oomKills else 0
  }

  /** Everything up to and including the launch. */
  function LaunchFault(w: World): Option<Incident> {
    Or(SetupFault(w), Or(LookFault(w.admission, Baseline(w), "admission", "operation"), Fault(w.launch, "operation")))
  }

  function RunFault(w: World): Option<Incident> {
    Or(LaunchFault(w), PollsFault(w.polls, Baseline(w), w.survivors))
  }

  /** The inner part of the cleanup, after the cohort was asked to stop. `baseline` is None when no
      admission sample was taken. */
  function DrainFault(w: World, launched: bool): Option<Incident> {
    Or(match w.populatedFirst { case Raised(e) => Some(Incident(e, "cleanup", None)) case Got(_) => None },
    Or(match w.populatedSecond {
         case Raised(e) => Some(Incident(e, "cleanup", None))
         case Got(p) => if p then Fault(w.killLate, "cleanup") else None },
    Or(Fault(w.drain, "cleanup"),
    Or(if launched then Fault(w.wait, "cleanup") else None,
    match w.populatedLast
    case Raised(e) => Some(Incident(e, "cleanup", None))
    case Got(p) => if p then Some(Incident("owned cohort did not drain", "cleanup", None)) else None))))
  }

  function FinalFault(w: World, sampled: bool): Option<Incident> {
    match w.final.sample
    case Raised(e) => Some(Incident(e, "cleanup", None))
    case Got(s) => LookFault(w.final, if sampled then Baseline(w) else s.oomKills, "final", "cleanup")
  }

  function CleanupFault(w: World, launched: bool, sampled: bool): Option<Incident> {
    Or(Fault(w.enumerate, "cleanup enumeration"),
    Or(DrainFault(w, launched), FinalFault(w, sampled)))
  }

  /** Whether the run got as far as an admission sample. */
  predicate Sampled(w: World) {
    SetupFault(w) == None && w.admission.sample.Got?
  }

  predicate Launched(w: World) {
    LaunchFault(w) == None
  }

  /** The earliest failure of the whole operation. */
  function EarliestFault(w: World): Option<Incident> {
    Or(RunFault(w),
      if IdentityFault(w) == None then
        Or(CleanupFault(w, Launched(w), Sampled(w)), Fault(w.removeGroup, "cgroup removal"))
      else None)
  }

  // ---------- the same failures as a list in the order of time ----------

  ghost function FirstOf(faults: seq<Option<Incident>>): Option<Incident> {
    if faults == [] then None else if faults[0].Some? then faults[0] else FirstOf(faults[1..])
  }

  ghost function ReadFault<T>(r: Read<T>, phase: string): Option<Incident> {
    if r.Raised? then Some(Incident(r.error, phase, None)) else None
  }

  /** Setup, one step after the other. */
  ghost function SetupFaults(w: World): seq<Option<Incident>> {
    [Fault(w.controllers, "operation"), Fault(w.makeGroup, "operation"), Fault(w.identify, "operation"),
     Fault(w.forbidSwap, "operation"), Fault(w.admitEmpty, "operation"), Fault(w.killable, "operation")]
  }

  ghost function RunFaults(w: World): seq<Option<Incident>> {
    SetupFaults(w) + [
      LookFault(w.admission, Baseline(w), "admission", "operation"), Fault(w.launch, "operation"),
      PollsFault(w.polls, Baseline(w), w.survivors)]
  }

  /** The cleanup of a group whose identity is known. */
  ghost function CleanupFaults(w: World): seq<Option<Incident>> {
    [Fault(w.enumerate, "cleanup enumeration"),
     ReadFault(w.populatedFirst, "cleanup"),
     ReadFault(w.populatedSecond, "cleanup"),
     if w.populatedSecond == Got(true) then Fault(w.killLate, "cleanup") else None,
     Fault(w.drain, "cleanup"),
     if Launched(w) then Fault(w.wait, "cleanup") else None,
     ReadFault(w.populatedLast, "cleanup"),
     if w.populatedLast == Got(true) then Some(Incident("owned cohort did not drain", "cleanup", None)) else None,
     FinalFault(w, Sampled(w)),
     Fault(w.removeGroup, "cgroup removal")]
  }

  /** The recorded failure is the first in time. A fault of the run is recorded whatever the cleanup did, and
      a fault of the cleanup only when the run had none. */
  lemma EarliestInTime(w: World)
    ensures EarliestFault(w) ==
      FirstOf(RunFaults(w) + (if FirstOf(SetupFaults(w)[..3]) == None then CleanupFaults(w) else []))
    ensures FirstOf(RunFaults(w)).Some? ==> EarliestFault(w) == FirstOf(RunFaults(w))
  {
    var run, cleanup := RunFaults(w), CleanupFaults(w);
    hide LookFault, PollsFault, FinalFault, Fault, Sampled, Launched, Baseline;
    RunInTime(w);
    CleanupInTime(w);
    FirstAppends(run, cleanup);
    assert run + [] == run && FirstOf([]) == None;
    hide RunFault, CleanupFault, RunFaults, CleanupFaults, SetupFaults, IdentityFault, FirstOf;
  }

  lemma {:induction false} FirstAppends(a: seq<Option<Incident>>, b: seq<Option<Incident>>)
    ensures FirstOf(a + b) == Or(FirstOf(a), FirstOf(b))
  {
    if a == [] {
      assert a + b == b;
    } else {
      FirstAppends(a[1..], b);
      assert (a + b)[1..] == a[1..] + b;
    }
  }

  lemma FirstCons(f: Option<Incident>, rest: seq<Option<Incident>>)
    ensures FirstOf([f] + rest) == Or(f, FirstOf(rest))
  {
    assert ([f] + rest)[1..] == rest;
  }

  lemma FirstFew(a: Option<Incident>, b: Option<Incident>, c: Option<Incident>)
    ensures FirstOf([a, b, c]) == Or(a, Or(b, c))
  {
    FirstCons(a, [b, c]);
    FirstCons(b, [c]);
    FirstCons(c, []);
    assert [a] + [b, c] == [a, b, c] && [b] + [c] == [b, c] && [c] + [] == [c];
  }

  lemma RunInTime(w: World)
    ensures RunFault(w) == FirstOf(RunFaults(w))
    ensures IdentityFault(w) == FirstOf(SetupFaults(w)[..3])
  {
    hide LookFault, PollsFault, Fault, Baseline;
    var f := SetupFaults(w);
    var g := RunFaults(w)[6..];
    assert RunFaults(w) == f + g && f == f[..3] + f[3..];
    FirstAppends(f, g);
    FirstAppends(f[..3], f[3..]);
    FirstFew(f[0], f[1], f[2]);
    FirstFew(f[3], f[4], f[5]);
    FirstFew(g[0], g[1], g[2]);
    assert f[..3] == [f[0], f[1], f[2]] && f[3..] == [f[3], f[4], f[5]] && g == [g[0], g[1], g[2]];
  }

  lemma FirstTen(f: seq<Option<Incident>>)
    requires |f| == 10
    ensures FirstOf(f) ==
      Or(f[0], Or(f[1], Or(f[2], Or(f[3], Or(f[4], Or(f[5], Or(f[6], Or(f[7], Or(f[8], f[9])))))))))
  {
    var a, b, c, d := f[..3], f[3..6], f[6..9], f[9..];
    FirstAppends(a, b + (c + d));
    FirstAppends(b, c + d);
    FirstAppends(c, d);
    FirstFew(f[0], f[1], f[2]);
    FirstFew(f[3], f[4], f[5]);
    FirstFew(f[6], f[7], f[8]);
    FirstCons(f[9], []);
    assert FirstOf([]) == None && [f[9]] + [] == [f[9]];
    assert a == [f[0], f[1], f[2]] && b == [f[3], f[4], f[5]] && c == [f[6], f[7], f[8]] && d == [f[9]];
    assert f == a + (b + (c + d));
    hide FirstOf;
  }

  lemma DrainInTime(w: World)
    ensures var f := CleanupFaults(w);
      DrainFault(w, Launched(w)) == Or(f[1], Or(f[2], Or(f[3], Or(f[4], Or(f[5], Or(f[6], f[7]))))))
  {
    hide LookFault, FinalFault, Sampled, Launched;
  }

  lemma CleanupInTime(w: World)
    ensures FirstOf(CleanupFaults(w)) ==
      Or(CleanupFault(w, Launched(w), Sampled(w)), Fault(w.removeGroup, "cgroup removal"))
  {
    var f := CleanupFaults(w);
    FirstTen(f);
    DrainInTime(w);
    assert f[0] == Fault(w.enumerate, "cleanup enumeration") && f[8] == FinalFault(w, Sampled(w))
        && f[9] == Fault(w.removeGroup, "cgroup removal");
    hide LookFault, FinalFault, Fault, Sampled, Launched, DrainFault, CleanupFaults, FirstOf;
  }

  // ---------- the supervisor itself ----------

  function MaxRss(samples: seq<Sample>): nat
    requires samples != []
  {
    if |samples| == 1 then samples[0].rss
    else
      var rest := MaxRss(samples[..|samples| - 1]);
      if samples[|samples| - 1].rss > rest then samples[|samples| - 1].rss else rest
  }

  function MinAvailable(samples: seq<Sample>): nat
    requires samples != []
  {
    if |samples| == 1 then samples[0].available
    else
      var rest := MinAvailable(samples[..|samples| - 1]);
      if samples[|samples| - 1].available < rest then samples[|samples| - 1].available else rest
  }

  /** The running samples taken before the loop ended, one way or the other. */
  function Taken(polls: seq<Poll>, baseline: nat): seq<Sample> {
    if polls == [] || polls[0].look.sample.Raised? then []
    else if LookFault(polls[0].look, baseline, "running", "operation") == None && polls[0].exited == Got(None)
    then [polls[0].look.sample.value] + Taken(polls[1..], baseline)
    else [polls[0].look.sample.value]
  }

  lemma PeakGrows(seen: seq<Sample>, s: Sample)
    requires seen != []
    ensures MaxRss(seen + [s]) == if s.rss > MaxRss(seen) then s.rss else MaxRss(seen)
    ensures MinAvailable(seen + [s]) == if s.available < MinAvailable(seen) then s.available else MinAvailable(seen)
  {
    assert (seen + [s])[..|seen|] == seen;
  }

  /** The recorded extremes are reached by some sample and passed by none. */
  lemma {:induction false} PeakMeans(samples: seq<Sample>)
    requires samples != []
    ensures (forall i :: 0 <= i < |samples| ==> samples[i].rss <= MaxRss(samples))
    ensures (exists i :: 0 <= i < |samples| && samples[i].rss == MaxRss(samples))
    ensures (forall i :: 0 <= i < |samples| ==> samples[i].available >= MinAvailable(samples))
    ensures (exists i :: 0 <= i < |samples| && samples[i].available == MinAvailable(samples))
  {
    var n := |samples| - 1;
    if n > 0 {
      PeakMeans(samples[..n]);
      var i :| 0 <= i < n && samples[..n][i].rss == MaxRss(samples[..n]);
      var j :| 0 <= j < n && samples[..n][j].available == MinAvailable(samples[..n]);
      assert samples[i].rss == MaxRss(samples[..n]) && samples[j].available == MinAvailable(samples[..n]);
      assert forall k :: 0 <= k < n ==> samples[..n][k] == samples[k];
    }
    assert samples[n].rss <= MaxRss(samples) && samples[n].available >= MinAvailable(samples);
  }

  lemma PeakSingle(s: Sample)
    ensures MaxRss([s]) == s.rss && MinAvailable([s]) == s.available
  {
  }

  lemma NothingTaken(baseline: nat)
    ensures Taken([], baseline) == []
  {
  }

  lemma NoneTaken(polls: seq<Poll>, baseline: nat)
    requires polls != [] && polls[0].look.sample.Raised?
    ensures Taken(polls, baseline) == []
  {
  }

  /** What one more round adds to the samples taken. */
  lemma TakenStep(seen: seq<Sample>, polls: seq<Poll>, baseline: nat)
    requires polls != [] && polls[0].look.sample.Got?
    ensures LookFault(polls[0].look, baseline, "running", "operation") == None && polls[0].exited == Got(None) ==>
      seen + Taken(polls, baseline) == seen + [polls[0].look.sample.value] + Taken(polls[1..], baseline)
    ensures !(LookFault(polls[0].look, baseline, "running", "operation") == None && polls[0].exited == Got(None)) ==>
      seen + Taken(polls, baseline) == seen + [polls[0].look.sample.value]
  {
    hide LookFault;
    TakenOpens(polls, baseline);
    hide Taken;
    var s := polls[0].look.sample.value;
    assert forall more: seq<Sample> :: seen + ([s] + more) == seen + [s] + more;
  }

  lemma TakenOpens(polls: seq<Poll>, baseline: nat)
    requires polls != [] && polls[0].look.sample.Got?
    ensures Taken(polls, baseline) ==
      if LookFault(polls[0].look, baseline, "running", "operation") == None && polls[0].exited == Got(None)
      then [polls[0].look.sample.value] + Taken(polls[1..], baseline)
      else [polls[0].look.sample.value]
  {
    hide LookFault;
  }

  /** The last sample before the cleanup. */
  ghost function LastSeen(w: World): Option<Sample> {
    if !Sampled(w) then None
    else if !Launched(w) then Some(w.admission.sample.value)
    else
      var samples := [w.admission.sample.value] + Taken(w.polls, Baseline(w));
      Some(samples[|samples| - 1])
  }

  ghost function Somes(steps: seq<Step>): seq<string> {
    if steps == [] then [] else (if steps[0].Some? then [steps[0].value] else []) + Somes(steps[1..])
  }

  /** No step of stopping and draining the cohort raises. */
  ghost predicate DrainQuiet(w: World, launched: bool) {
    && (w.enumerate.Some? ==> w.killUnseen == None)
    && w.populatedFirst.Got? && w.populatedSecond.Got? && (w.populatedSecond.value ==> w.killLate == None)
    && w.drain == None && (launched ==> w.wait == None) && w.populatedLast == Got(false)
  }

  /** The errors recorded in the order of time, when the cleanup raised `raised`. */
  ghost predicate Recorded(w: World, errors: seq<string>, raised: Step) {
    && (raised == None <==> DrainQuiet(w, Launched(w)) && FinalFault(w, Sampled(w)) == None)
    && errors == Somes([w.enumerate, raised, if raised.Some? then w.lastResort else None, w.removeGroup])
  }

  ghost predicate ErrorsKept(w: World, errors: seq<string>) {
    exists raised :: Recorded(w, errors, raised)
  }

  lemma ErrorsInOrder(w: World, raised: Step)
    requires raised == None <==> DrainQuiet(w, Launched(w)) && FinalFault(w, Sampled(w)) == None
    ensures forall s: Step :: Somes([s]) == if s.Some? then [s.value] else []
    ensures ErrorsKept(w, Somes([w.enumerate]) +
      (if raised == None then [] else [raised.value] + Somes([w.lastResort])) + Somes([w.removeGroup]))
  {
    SomesFour(w.enumerate, raised, if raised.Some? then w.lastResort else None, w.removeGroup);
    hide Somes, DrainQuiet, FinalFault, Launched, Sampled;
    var front, back := Somes([w.enumerate]), Somes([w.removeGroup]);
    if raised.Some? {
      assert front + ([raised.value] + Somes([w.lastResort])) + back
        == front + [raised.value] + Somes([w.lastResort]) + back;
      assert Recorded(w, front + [raised.value] + Somes([w.lastResort]) + back, raised);
    } else {
      assert front + [] + back == front + [] + [] + back;
      assert Recorded(w, front + [] + [] + back, raised);
    }
  }

  lemma SomesFour(a: Step, b: Step, c: Step, d: Step)
    ensures Somes([a, b, c, d]) == Somes([a]) + Somes([b]) + Somes([c]) + Somes([d])
    ensures forall s: Step :: Somes([s]) == if s.Some? then [s.value] else []
  {
    SomesCons(a, [b, c, d]);
    SomesCons(b, [c, d]);
    SomesCons(c, [d]);
    hide Somes;
    assert [a] + [b, c, d] == [a, b, c, d] && [b] + [c, d] == [b, c, d] && [c] + [d] == [c, d];
    SomesJoin(Somes([a]), Somes([b]), Somes([c]), Somes([d]));
  }

  lemma SomesJoin(a: seq<string>, b: seq<string>, c: seq<string>, d: seq<string>)
    ensures a + (b + (c + d)) == a + b + c + d
  {
  }

  lemma SomesCons(s: Step, rest: seq<Step>)
    ensures Somes([s] + rest) == Somes([s]) + Somes(rest)
    ensures forall x: Step :: Somes([x]) == if x.Some? then [x.value] else []
  {
    assert ([s] + rest)[1..] == rest && [s][1..] == [];
    assert Somes([]) == [];
    forall x: Step
      ensures Somes([x]) == if x.Some? then [x.value] else []
    {
      assert [x][1..] == [];
    }
  }

  /** The loop saw the command end with this code. */
  ghost predicate Exited(polls: seq<Poll>, baseline: nat, code: int) {
    exists n: nat :: EndsIn(polls, baseline, n, code)
  }

  ghost predicate EndsIn(polls: seq<Poll>, baseline: nat, n: nat, code: int) {
    && n < |polls| && RunningUpTo(polls, baseline, n) && Well(polls[n].look, baseline)
    && polls[n].exited == Got(Some(code))
  }

  /** The exit code the loop saw. */
  ghost function ExitSeen(polls: seq<Poll>, baseline: nat): Option<int> {
    if polls == [] || LookFault(polls[0].look, baseline, "running", "operation").Some? then None
    else if polls[0].exited.Raised? then None
    else if polls[0].exited.value.Some? then polls[0].exited.value
    else ExitSeen(polls[1..], baseline)
  }

  lemma {:induction false} ExitMeans(polls: seq<Poll>, baseline: nat, code: int)
    ensures ExitSeen(polls, baseline) == Some(code) <==> Exited(polls, baseline, code)
  {
    hide LookFault, Well;
    if polls != [] {
      var rest := polls[1..];
      LookDecides(polls[0].look, baseline, "running", "operation");
      ExitMeans(rest, baseline, code);
      if n: nat :| EndsIn(polls, baseline, n, code) {
        if n > 0 { assert EndsIn(rest, baseline, n - 1, code); }
      }
      if n: nat :| EndsIn(rest, baseline, n, code) && Well(polls[0].look, baseline) && polls[0].exited == Got(None) {
        assert EndsIn(polls, baseline, n + 1, code);
      }
      if Well(polls[0].look, baseline) && polls[0].exited == Got(Some(code)) {
        assert EndsIn(polls, baseline, 0, code);
      }
    }
  }

  class Receipt {
    var firstFailure: Option<Incident>
    var cleanupErrors: seq<string>
    var initial: Option<Sample>
    var last: Option<Sample>
    var commandStarted: bool
    var peakRss: nat
    var minimumAvailable: nat
    var exitCode: Option<int>
    var cohortEmpty: bool
    var final: Option<Sample>
    var removed: bool
    var passed: bool

    constructor ()
      ensures firstFailure == None && cleanupErrors == [] && initial == None && last == None && exitCode == None
        && final == None
      ensures !commandStarted && !cohortEmpty && !removed && !passed
    {
      firstFailure, cleanupErrors, initial, last := None, [], None, None;
      commandStarted, peakRss, minimumAvailable := false, 0, 0;
      exitCode, cohortEmpty, final, removed, passed := None, false, None, false, false;
    }

    /** Only the first failure is kept. */
    method Fail(f: Incident)
      modifies this`firstFailure
      ensures firstFailure == Or(old(firstFailure), Some(f))
    {
      if firstFailure == None {
        firstFailure := Some(f);
      }
    }

    /** Checks a sample; raises after recording broken limits, or straight from the containment test. */
    method Check(s: Sample, late: bool, containment: Step, phase: string) returns (raised: Step)
      modifies this`firstFailure
      ensures raised.Some? <==>
        containment.Some? || Reasons(s, if initial.Some? then initial.value.oomKills else s.oomKills, late) != []
      ensures containment.Some? ==> raised == containment && firstFailure == old(firstFailure)
      ensures containment == None ==>
        var reasons := Reasons(s, if initial.Some? then initial.value.oomKills else s.oomKills, late);
        firstFailure == (if reasons == [] then old(firstFailure)
          else Or(old(firstFailure), Some(Incident(Join(reasons), phase, Some(s)))))
    {
      var reasons := Reasons(s, if initial.Some? then initial.value.oomKills else s.oomKills, late);
      if containment.Some? {
        return containment;
      }
      if reasons != [] {
        Fail(Incident(Join(reasons), phase, Some(s)));
        return Some(Join(reasons));
      }
      return None;
    }

    /** From the first setup step to the launch of the command. */
    method Start(w: World) returns (raised: Step, identified: bool)
      requires firstFailure == None && initial == None && !commandStarted
      modifies this`firstFailure, this`initial, this`last, this`commandStarted, this`peakRss, this`minimumAvailable
      ensures identified <==> IdentityFault(w) == None
      ensures raised.Some? <==> LaunchFault(w).Some?
      ensures raised.Some? ==> Or(firstFailure, Some(Incident(raised.value, "operation", None))) == LaunchFault(w)
      ensures raised == None ==> firstFailure == None
      ensures initial.Some? <==> Sampled(w)
      ensures initial.Some? ==> w.admission.sample == Got(initial.value)
      ensures commandStarted <==> Launched(w)
      ensures commandStarted ==> initial.Some? && w.admission.sample.Got?
      ensures commandStarted ==>
        peakRss == w.admission.sample.value.rss && minimumAvailable == w.admission.sample.value.available
      ensures last == if Sampled(w) then Some(w.admission.sample.value) else old(last)
    {
      identified := false;
      if w.controllers.Some? { return w.controllers, false; }
      if w.makeGroup.Some? { return w.makeGroup, false; }
      if w.identify.Some? { return w.identify, false; }
      identified := true;
      if w.forbidSwap.Some? { return w.forbidSwap, true; }
      if w.admitEmpty.Some? { return w.admitEmpty, true; }
      if w.killable.Some? { return w.killable, true; }
      if w.admission.sample.Raised? { return Some(w.admission.sample.error), true; }
      initial := Some(w.admission.sample.value);
      last := initial;
      raised := Check(initial.value, w.admission.late, w.admission.containment, "admission");
      if raised.Some? { return raised, true; }
      if w.launch.Some? { return w.launch, true; }
      commandStarted := true;
      peakRss := initial.value.rss;
      minimumAvailable := initial.value.available;
    }

    /** The polling loop, to the command's exit or the first exception. */
    method Watch(w: World) returns (raised: Step)
      requires firstFailure == None && commandStarted && w.admission.sample.Got?
        && initial == Some(w.admission.sample.value)
      requires peakRss == initial.value.rss && minimumAvailable == initial.value.available
      requires last == initial && exitCode == None
      modifies this`firstFailure, this`last, this`peakRss, this`minimumAvailable, this`exitCode
      ensures raised.Some? <==> PollsFault(w.polls, Baseline(w), w.survivors).Some?
      ensures raised.Some? ==>
        Or(firstFailure, Some(Incident(raised.value, "operation", None)))
          == PollsFault(w.polls, Baseline(w), w.survivors)
      ensures raised == None ==> firstFailure == None && exitCode == Some(0)
      ensures peakRss == MaxRss([w.admission.sample.value] + Taken(w.polls, Baseline(w)))
      ensures minimumAvailable == MinAvailable([w.admission.sample.value] + Taken(w.polls, Baseline(w)))
      ensures var samples := [w.admission.sample.value] + Taken(w.polls, Baseline(w));
        last == Some(samples[|samples| - 1])
      ensures exitCode == ExitSeen(w.polls, Baseline(w))
    {
      hide MaxRss, MinAvailable, Reasons, Taken;
      var i := 0;
      ghost var baseline, all := Baseline(w), Taken(w.polls, Baseline(w));
      NothingTaken(baseline);
      PeakSingle(w.admission.sample.value);
      ghost var seen := [w.admission.sample.value];
      while i < |w.polls|
        invariant i <= |w.polls| && firstFailure == None
        invariant PollsFault(w.polls, baseline, w.survivors) == PollsFault(w.polls[i..], baseline, w.survivors)
        invariant seen != [] && seen + Taken(w.polls[i..], baseline) == [w.admission.sample.value] + all
        invariant peakRss == MaxRss(seen) && minimumAvailable == MinAvailable(seen)
        invariant last == Some(seen[|seen| - 1]) && exitCode == None
        invariant ExitSeen(w.polls, baseline) == ExitSeen(w.polls[i..], baseline)
      {
        var poll := w.polls[i];
        ghost var rest := w.polls[i..];
        assert rest[0] == poll && rest[1..] == w.polls[i + 1..];
        if poll.look.sample.Raised? {
          NoneTaken(rest, baseline);
          assert seen + [] == seen;
          return Some(poll.look.sample.error);
        }
        last := Some(poll.look.sample.value);
        TakenStep(seen, rest, baseline);
        PeakGrows(seen, last.value);
        seen := seen + [last.value];
        peakRss := if last.value.rss > peakRss then last.value.rss else peakRss;
        minimumAvailable := if last.value.available < minimumAvailable then last.value.available else minimumAvailable;
        raised := Check(last.value, poll.look.late, poll.look.containment, "running");
        if raised.Some? {
          return;
        }
        if poll.exited.Raised? {
          return Some(poll.exited.error);
        }
        if poll.exited.value.Some? {
          exitCode := poll.exited.value;
          if exitCode.value != 0 { return Some("operation command failed"); }
          if w.survivors.Raised? { return Some(w.survivors.error); }
          if w.survivors.value > 0 { return Some("owned descendants retained after command exit"); }
          return None;
        }
        i := i + 1;
      }
      assert w.polls[i..] == [] && seen + [] == seen;
      return Some("guard supervisor interrupted");
    }

    /** Stops the cohort and waits until it is empty. A failed enumeration is recorded on the way. */
    method Drain(w: World) returns (raised: Step)
      modifies this`firstFailure, this`cleanupErrors, this`cohortEmpty
      ensures firstFailure == Or(old(firstFailure), Fault(w.enumerate, "cleanup enumeration"))
      ensures raised == None <==> DrainQuiet(w, commandStarted)
      ensures raised == None ==> DrainFault(w, commandStarted) == None && cohortEmpty
      ensures raised.Some? && w.enumerate == None ==>
        DrainFault(w, commandStarted) == Some(Incident(raised.value, "cleanup", None))
      ensures cleanupErrors == old(cleanupErrors) + Somes([w.enumerate])
    {
      if w.enumerate.Some? {
        cleanupErrors := cleanupErrors + [w.enumerate.value];
        Fail(Incident(w.enumerate.value, "cleanup enumeration", None));
        if w.killUnseen.Some? { return w.killUnseen; }
      }
      if w.populatedFirst.Raised? { return Some(w.populatedFirst.error); }
      if w.populatedSecond.Raised? { return Some(w.populatedSecond.error); }
      if w.populatedSecond.value && w.killLate.Some? { return w.killLate; }
      if w.drain.Some? { return w.drain; }
      if commandStarted && w.wait.Some? { return w.wait; }
      if w.populatedLast.Raised? { return Some(w.populatedLast.error); }
      cohortEmpty := !w.populatedLast.value;
      if !cohortEmpty { return Some("owned cohort did not drain"); }
      return None;
    }

    /** Takes and checks the final sample. */
    method TakeFinal(w: World) returns (raised: Step)
      requires initial.Some? ==> Sampled(w) && initial.value == w.admission.sample.value
      modifies this`firstFailure, this`final
      ensures raised.Some? <==> FinalFault(w, initial.Some?).Some?
      ensures raised.Some? ==>
        Or(firstFailure, Some(Incident(raised.value, "cleanup", None)))
          == Or(old(firstFailure), FinalFault(w, initial.Some?))
      ensures raised == None ==> firstFailure == Or(old(firstFailure), FinalFault(w, initial.Some?))
      ensures raised == None ==> final.Some? && w.final.sample == Got(final.value)
    {
      hide Reasons, Join, SetupFault;
      if w.final.sample.Raised? { return Some(w.final.sample.error); }
      final := Some(w.final.sample.value);
      raised := Check(final.value, w.final.late, w.final.containment, "final");
    }

    /** The cleanup: stops and drains the cohort, then takes and checks the final sample. */
    method DrainAndFinal(w: World) returns (raised: Step)
      requires initial.Some? ==> Sampled(w) && initial.value == w.admission.sample.value
      modifies this`firstFailure, this`cleanupErrors, this`cohortEmpty, this`final
      ensures raised.Some? ==> (
        Or(firstFailure, Some(Incident(raised.value, "cleanup", None))) ==
        Or(old(firstFailure), CleanupFault(w, commandStarted, initial.Some?)))
      ensures raised == None ==> firstFailure == Or(old(firstFailure), CleanupFault(w, commandStarted, initial.Some?))
      ensures raised == None ==> cohortEmpty && final.Some? && w.final.sample == Got(final.value)
      ensures raised.Some? ==> CleanupFault(w, commandStarted, initial.Some?).Some?
      ensures raised == None <==> DrainQuiet(w, commandStarted) && FinalFault(w, initial.Some?) == None
      ensures cleanupErrors == old(cleanupErrors) + Somes([w.enumerate])
      ensures firstFailure == None && raised == None ==> cleanupErrors == old(cleanupErrors)
    {
      hide DrainFault, FinalFault, Sampled, DrainQuiet, Somes;
      SomesFour(w.enumerate, None, None, None);
      raised := Drain(w);
      if raised == None {
        raised := TakeFinal(w);
      }
    }

    /** The cleanup with its records, to the removal of the group. */
    method CleanUp(w: World)
      requires initial.Some? ==> w.admission.sample == Got(initial.value)
      requires (commandStarted <==> Launched(w)) && (initial.Some? <==> Sampled(w))
      requires cleanupErrors == [] && !removed
      modifies this`firstFailure, this`cleanupErrors, this`cohortEmpty, this`final, this`removed
      ensures firstFailure == Or(old(firstFailure),
        Or(CleanupFault(w, Launched(w), Sampled(w)), Fault(w.removeGroup, "cgroup removal")))
      ensures firstFailure == None ==> cohortEmpty && removed && cleanupErrors == []
      ensures firstFailure == None ==> final.Some? && w.final.sample == Got(final.value)
      ensures removed <==> w.removeGroup == None
      ensures ErrorsKept(w, cleanupErrors)
    {
      hide LookFault, CleanupFault, Sampled, Launched, Somes, DrainQuiet, FinalFault, ErrorsKept;
      var error := DrainAndFinal(w);
      ErrorsInOrder(w, error);
      if error.Some? {
        cleanupErrors := cleanupErrors + [error.value];
        Fail(Incident(error.value, "cleanup", None));
        if w.lastResort.Some? {
          cleanupErrors := cleanupErrors + [w.lastResort.value];
        }
      }
      if w.removeGroup.Some? {
        cleanupErrors := cleanupErrors + [w.removeGroup.value];
        Fail(Incident(w.removeGroup.value, "cgroup removal", None));
      } else {
        removed := true;
      }
      assert cleanupErrors == Somes([w.enumerate]) +
        (if error == None then [] else [error.value] + Somes([w.lastResort])) + Somes([w.removeGroup]);
    }

    /** The whole operation. */
    method Supervise(w: World)
      requires firstFailure == None && cleanupErrors == [] && initial == None && !commandStarted && !removed
        && exitCode == None && final == None && last == None
      requires !cohortEmpty
      modifies this
      ensures firstFailure == EarliestFault(w)
      ensures passed <==> firstFailure == None
      ensures commandStarted <==> Launched(w)
      ensures commandStarted ==>
        var samples := [w.admission.sample.value] + Taken(w.polls, Baseline(w));
        peakRss == MaxRss(samples) && minimumAvailable == MinAvailable(samples)
      ensures passed ==> exitCode == Some(0) && cohortEmpty && removed && cleanupErrors == []
      ensures passed ==> initial.Some? && final.Some? && w.final.sample == Got(final.value)
      ensures removed <==> IdentityFault(w) == None && w.removeGroup == None
      ensures IdentityFault(w).Some? ==> cleanupErrors == [] && !cohortEmpty && final == None
      ensures IdentityFault(w) == None ==> ErrorsKept(w, cleanupErrors)
      ensures last == LastSeen(w)
      ensures forall code :: exitCode == Some(code) <==> Launched(w) && Exited(w.polls, Baseline(w), code)
    {
      hide PollsFault, CleanupFault, LookFault, Taken, MaxRss, MinAvailable, IdentityFault, Sampled;
      hide ErrorsKept, Exited, ExitSeen;
      var raised, identified := Start(w);
      if raised == None {
        raised := Watch(w);
      }
      if raised.Some? {
        Fail(Incident(raised.value, "operation", None));
      }
      assert firstFailure == RunFault(w);
      if identified {
        CleanUp(w);
      }
      forall code
        ensures ExitSeen(w.polls, Baseline(w)) == Some(code) <==> Exited(w.polls, Baseline(w), code)
      {
        ExitMeans(w.polls, Baseline(w), code);
      }
      passed := firstFailure == None;
    }
  }

  // ---------- what a verdict of "passed" is worth ----------

  predicate Well(look: Look, baseline: nat) {
    look.sample.Got? && WithinLimits(look.sample.value, baseline) && !look.late && look.containment == None
  }

  /** The command exits with code 0 in round n, and every round up to then is well. */
  ghost predicate ExitsCleanly(polls: seq<Poll>, baseline: nat, n: nat) {
    && n < |polls|
    && (forall i :: 0 <= i <= n ==> Well(polls[i].look, baseline))
    && (forall i :: 0 <= i < n ==> polls[i].exited == Got(None))
    && polls[n].exited == Got(Some(0))
  }

  /** Every step of the operation, from the first to the last, went as it should. */
  ghost predicate AllWell(w: World) {
    var baseline := Baseline(w);
    && w.controllers == None && w.makeGroup == None && w.identify == None
    && w.forbidSwap == None && w.admitEmpty == None && w.killable == None
    && Well(w.admission, baseline)
    && w.launch == None
    && (exists n: nat :: ExitsCleanly(w.polls, baseline, n))
    && w.survivors == Got(0)
    && w.enumerate == None
    && w.populatedFirst.Got? && w.populatedSecond.Got? && (w.populatedSecond.value ==> w.killLate == None)
    && w.drain == None && w.wait == None && w.populatedLast == Got(false)
    && Well(w.final, baseline)
    && w.removeGroup == None
  }

  lemma LookDecides(look: Look, baseline: nat, phase: string, outer: string)
    ensures LookFault(look, baseline, phase, outer) == None <==> Well(look, baseline)
  {
    if look.sample.Got? { ReasonsDecide(look.sample.value, baseline, look.late); }
  }

  lemma {:induction false} PollsDecide(polls: seq<Poll>, baseline: nat, survivors: Read<nat>)
    ensures PollsFault(polls, baseline, survivors) == None <==>
      survivors == Got(0) && exists n: nat :: ExitsCleanly(polls, baseline, n)
  {
    hide LookFault, Well;
    if polls != [] {
      var rest := polls[1..];
      LookDecides(polls[0].look, baseline, "running", "operation");
      PollsDecide(rest, baseline, survivors);
      if n: nat :| ExitsCleanly(polls, baseline, n) {
        if n > 0 { assert ExitsCleanly(rest, baseline, n - 1); }
      }
      if n: nat :| ExitsCleanly(rest, baseline, n) && Well(polls[0].look, baseline) && polls[0].exited == Got(None) {
        assert ExitsCleanly(polls, baseline, n + 1);
      }
      if Well(polls[0].look, baseline) && polls[0].exited == Got(Some(0)) {
        assert ExitsCleanly(polls, baseline, 0);
      }
    }
  }

  /** Up to round n every look was well and the command was still running. */
  ghost predicate RunningUpTo(polls: seq<Poll>, baseline: nat, n: nat) {
    n <= |polls| && forall i :: 0 <= i < n ==> Well(polls[i].look, baseline) && polls[i].exited == Got(None)
  }

  /** The round that ends the loop decides its failure. */
  lemma {:induction false} PollsInTime(polls: seq<Poll>, baseline: nat, survivors: Read<nat>, n: nat)
    requires RunningUpTo(polls, baseline, n) && n < |polls| && !RunningUpTo(polls, baseline, n + 1)
    ensures var p, fault := polls[n], PollsFault(polls, baseline, survivors);
      && (!Well(p.look, baseline) ==> fault == LookFault(p.look, baseline, "running", "operation"))
      && (Well(p.look, baseline) && p.exited.Raised? ==> fault == Some(Incident(p.exited.error, "operation", None)))
      && (Well(p.look, baseline) && p.exited.Got? && p.exited.value != Some(0) ==>
            fault == Some(Incident("operation command failed", "operation", None)))
      && (Well(p.look, baseline) && p.exited == Got(Some(0)) ==>
            && (survivors.Raised? ==> fault == Some(Incident(survivors.error, "operation", None)))
            && (survivors.Got? && survivors.value > 0 ==>
                  fault == Some(Incident("owned descendants retained after command exit", "operation", None)))
            && (survivors == Got(0) ==> fault == None))
  {
    hide LookFault, Well;
    LookDecides(polls[0].look, baseline, "running", "operation");
    if n > 0 {
      RunningTail(polls, baseline, n);
      PollsInTime(polls[1..], baseline, survivors, n - 1);
    } else {
      assert polls[0].exited == Got(None) ==> !Well(polls[0].look, baseline);
    }
  }

  lemma RunningTail(polls: seq<Poll>, baseline: nat, n: nat)
    requires RunningUpTo(polls, baseline, n) && 0 < n
    ensures RunningUpTo(polls[1..], baseline, n - 1)
    ensures n < |polls| && !RunningUpTo(polls, baseline, n + 1) ==> !RunningUpTo(polls[1..], baseline, n)
    ensures Well(polls[0].look, baseline) && polls[0].exited == Got(None)
  {
    hide Well;
    if n < |polls| && RunningUpTo(polls[1..], baseline, n) {
      assert forall i :: 0 < i <= n ==> polls[i] == polls[1..][i - 1];
    }
  }

  /** The samples taken are those of the rounds up to the one that ends the loop, its own included unless
      reading it failed. */
  lemma {:induction false} TakenInTime(polls: seq<Poll>, baseline: nat, n: nat)
    requires RunningUpTo(polls, baseline, n) && !RunningUpTo(polls, baseline, n + 1)
    ensures |Taken(polls, baseline)| == n + (if n < |polls| && polls[n].look.sample.Got? then 1 else 0)
    ensures forall i :: 0 <= i < |Taken(polls, baseline)| ==> polls[i].look.sample == Got(Taken(polls, baseline)[i])
  {
    hide LookFault, Well;
    if polls != [] {
      LookDecides(polls[0].look, baseline, "running", "operation");
      if n > 0 {
        RunningTail(polls, baseline, n);
        WellIsRead(polls[0].look, baseline);
        TakenInTime(polls[1..], baseline, n - 1);
      }
    }
  }

  /** An operation passes exactly when every step of it was well: nothing that went wrong anywhere in
      setup, admission, the run, the cleanup or the removal can be missing from the verdict. */
  lemma PassedExactlyWhenAllWell(w: World)
    ensures EarliestFault(w) == None <==> AllWell(w)
  {
    hide PollsFault, LookFault, ExitsCleanly, Well;
    LookDecides(w.admission, Baseline(w), "admission", "operation");
    PollsDecide(w.polls, Baseline(w), w.survivors);
    if w.final.sample.Got? {
      LookDecides(w.final, Baseline(w), "final", "cleanup");
      LookDecides(w.final, w.final.sample.value.oomKills, "final", "cleanup");
    }
    WellIsRead(w.final, Baseline(w));
    WellIsRead(w.admission, Baseline(w));
  }

  lemma WellIsRead(look: Look, baseline: nat)
    ensures Well(look, baseline) ==> look.sample.Got?
  {
  }

  /** A broken limit is recorded with its sample exactly when the containment test is quiet: the test
      runs before the limits are reported, so its error takes the place of a breach already seen. */
  lemma BreachRecordedUnlessMasked(look: Look, baseline: nat, phase: string, outer: string)
    requires look.sample.Got? && Reasons(look.sample.value, baseline, look.late) != []
    ensures LookFault(look, baseline, phase, outer).Some?
    ensures LookFault(look, baseline, phase, outer).value.sample == Some(look.sample.value) <==>
      look.containment == None
  {
  }

  lemma MaskedBreach()
    ensures var s := Sample(true, 0, 0, 0, 0, 2 * GIB, 8 * GIB, 0, 0, 0);
      var look := Look(Got(s), false, Some("host safety stop present"));
      Reasons(s, 0, false) == ["owned RSS limit reached"] &&
      LookFault(look, 0, "running", "operation") == Some(Incident("host safety stop present", "operation", None))
  {
  }
}
