/** Installing hooks into a user's settings, and taking them out again. */
module HookSettings {
  import opened Basics

  datatype Hook = Hook(kind: string, command: Option<string>, timeout: Option<int>)

  datatype Entry = Entry(matcher: Option<string>, hooks: Option<seq<Hook>>)

  /** Entries by event, in the order of the keys. */
  type Config = seq<(string, seq<Entry>)>

  /** Each event once. */
  ghost predicate Keyed(c: Config) {
    forall i, j :: 0 <= i < j < |c| ==> c[i].0 != c[j].0
  }

  predicate HasKey(c: Config, event: string) {
    exists i :: 0 <= i < |c| && c[i].0 == event
  }

  /** The event's entries, none when it has no key. */
  function Get(c: Config, event: string): seq<Entry> {
    if c == [] then [] else if c[0].0 == event then c[0].1 else Get(c[1..], event)
  }

  /** A key that is there keeps its place; a new one goes to the end. */
  function Set(c: Config, event: string, es: seq<Entry>): Config {
    if c == [] then [(event, es)]
    else if c[0].0 == event then [(event, es)] + c[1..]
    else [c[0]] + Set(c[1..], event, es)
  }

  function Delete(c: Config, event: string): Config {
    if c == [] then []
    else if c[0].0 == event then c[1..]
    else [c[0]] + Delete(c[1..], event)
  }

  lemma {:induction false} SetGet(c: Config, event: string, es: seq<Entry>, other: string)
    ensures Get(Set(c, event, es), other) == if other == event then es else Get(c, other)
    ensures HasKey(Set(c, event, es), other) <==> other == event || HasKey(c, other)
  {
    var r := Set(c, event, es);
    if c != [] {
      SetGet(c[1..], event, es, other);
      assert c == [c[0]] + c[1..];
      KeyHeads(c[0], c[1..], other);
      KeyHeads((event, es), c[1..], other);
      KeyHeads(c[0], Set(c[1..], event, es), other);
    } else {
      KeyHeads((event, es), [], other);
      assert [(event, es)] + [] == [(event, es)];
      assert !HasKey([], other);
    }
  }

  lemma KeyHeads(head: (string, seq<Entry>), rest: Config, event: string)
    ensures HasKey([head] + rest, event) <==> head.0 == event || HasKey(rest, event)
  {
    var c := [head] + rest;
    assert c[0] == head;
    if HasKey(rest, event) {
      var i :| 0 <= i < |rest| && rest[i].0 == event;
      assert c[i + 1].0 == event;
    }
    if HasKey(c, event) {
      var i :| 0 <= i < |c| && c[i].0 == event;
      assert i > 0 ==> rest[i - 1].0 == event;
    }
  }

  lemma {:induction false} SetSame(c: Config, event: string)
    requires HasKey(c, event)
    ensures Set(c, event, Get(c, event)) == c
  {
    assert c == [c[0]] + c[1..];
    KeyHeads(c[0], c[1..], event);
    if c[0].0 != event { SetSame(c[1..], event); }
  }

  // ---------- merging ----------

  /** The first hook's command; an entry without a first hook makes the lookup throw. */
  datatype Lookup = Throws | Command(text: Option<string>)

  function FirstCommand(e: Entry): Lookup {
    if e.hooks.None? || e.hooks.value == [] then Throws else Command(e.hooks.value[0].command)
  }

  datatype Found = Present | Absent | Thrown

  /** Whether some entry's first command is `cmd`, looking no further than the first that is. */
  function Scan(current: seq<Entry>, cmd: string): Found {
    if current == [] then Absent
    else match FirstCommand(current[0])
      case Throws => Thrown
      case Command(c) => if c == Some(cmd) then Present else Scan(current[1..], cmd)
  }

  function MergeEntries(current: seq<Entry>, incoming: seq<Entry>): Option<seq<Entry>>
    decreases |incoming|
  {
    if incoming == [] then Some(current)
    else match FirstCommand(incoming[0])
      case Throws => None
      case Command(None) => None
      case Command(Some(cmd)) =>
        match Scan(current, cmd)
        case Thrown => None
        case Present => MergeEntries(current, incoming[1..])
        case Absent => MergeEntries(current + [incoming[0]], incoming[1..])
  }

  function MergeAll(c: Config, incoming: Config): Option<Config>
    decreases |incoming|
  {
    if incoming == [] then Some(c)
    else match MergeEntries(Get(c, incoming[0].0), incoming[0].1)
      case None => None
      case Some(es) => MergeAll(Set(c, incoming[0].0, es), incoming[1..])
  }

  function Existing(hooks: Option<Config>): Config {
    if hooks.None? then [] else hooks.value
  }

  /** None stands for the exception a broken entry raises; nothing is saved then. */
  method MergeHooks(existing: Option<Config>, incoming: Config) returns (merged: Option<Config>)
    requires Installable(incoming)
    ensures merged == MergeAll(Existing(existing), incoming)
  {
    var c := Existing(existing);
    var i := 0;
    while i < |incoming|
      invariant i <= |incoming| && MergeAll(Existing(existing), incoming) == MergeAll(c, incoming[i..])
    {
      var event, entries := incoming[i].0, incoming[i].1;
      var current := Get(c, event);
      ghost var before := current;
      var j := 0;
      while j < |entries|
        invariant j <= |entries| && MergeEntries(before, entries) == MergeEntries(current, entries[j..])
      {
        assert Commanded(entries[j]);
        var cmd := entries[j].hooks.value[0].command.value;
        var found := Scan(current, cmd);
        assert entries[j..][1..] == entries[j + 1..];
        if found == Thrown {
          return None;
        }
        if found == Absent {
          current := current + [entries[j]];
        }
        j := j + 1;
      }
      assert incoming[i..][1..] == incoming[i + 1..];
      c := Set(c, event, current);
      i := i + 1;
    }
    merged := Some(c);
  }

  // ---------- what is installed ----------

  /** The entry's first hook has a command. */
  predicate Commanded(e: Entry) {
    FirstCommand(e).Command? && FirstCommand(e).text.Some?
  }

  function CommandOf(e: Entry): string
    requires Commanded(e)
  {
    e.hooks.value[0].command.value
  }

  ghost predicate AllCommanded(es: seq<Entry>) {
    forall i :: 0 <= i < |es| ==> Commanded(es[i])
  }

  ghost predicate Installable(c: Config) {
    Keyed(c) && forall i :: 0 <= i < |c| ==> AllCommanded(c[i].1)
  }

  predicate Includes(s: string, part: string) {
    exists i :: 0 <= i <= |s| - |part| && part <= s[i..]
  }

  lemma IncludesMeans(s: string, part: string)
    ensures Includes(s, part) <==> exists a, b :: s == a + part + b
  {
    if Includes(s, part) {
      var i :| 0 <= i <= |s| - |part| && part <= s[i..];
      ThreeParts(s, part, i);
    }
    if exists a, b :: s == a + part + b {
      var a, b :| s == a + part + b;
      Inside(a, part, b);
    }
  }

  lemma ThreeParts(s: string, part: string, i: nat)
    requires i <= |s| - |part| && part <= s[i..]
    ensures s == s[..i] + part + s[i + |part|..]
  {
    assert part == s[i..i + |part|];
  }

  lemma Inside(a: string, part: string, b: string)
    ensures Includes(a + part + b, part)
  {
    assert (a + part + b)[|a|..] == part + b;
  }

  predicate OurHook(h: Hook, dir: string) {
    h.command.Some? && Includes(h.command.value, dir)
  }

  /** Some hook's command points into our directory. */
  predicate Ours(e: Entry, dir: string) {
    e.hooks.Some? && exists k :: 0 <= k < |e.hooks.value| && OurHook(e.hooks.value[k], dir)
  }

  /** Some hook's command has the directory somewhere in it. */
  ghost predicate PointsInto(e: Entry, dir: string) {
    e.hooks.Some? && exists h, a, b :: h in e.hooks.value && h.command == Some(a + dir + b)
  }

  lemma OursMeans(e: Entry, dir: string)
    ensures Ours(e, dir) <==> PointsInto(e, dir)
  {
    if Ours(e, dir) {
      var k :| 0 <= k < |e.hooks.value| && OurHook(e.hooks.value[k], dir);
      IncludesMeans(e.hooks.value[k].command.value, dir);
      var a, b :| e.hooks.value[k].command.value == a + dir + b;
      assert e.hooks.value[k].command == Some(a + dir + b);
    }
    if PointsInto(e, dir) {
      var h, a, b :| h in e.hooks.value && h.command == Some(a + dir + b);
      IncludesMeans(h.command.value, dir);
      var k :| 0 <= k < |e.hooks.value| && e.hooks.value[k] == h;
      assert OurHook(e.hooks.value[k], dir);
    }
  }

  lemma {:induction false} KeptMeans(es: seq<Entry>, e: Entry, dir: string)
    ensures e in Kept(es, dir) <==> e in es && !PointsInto(e, dir)
  {
    if es != [] {
      OursMeans(es[0], dir);
      KeptMeans(es[1..], e, dir);
    }
    hide Ours, PointsInto;
  }

  /** Of every event exactly the entries none of whose commands has the directory in it are left. */
  lemma {:induction false} RemovedMeans(c: Config, event: string, e: Entry, dir: string)
    requires Keyed(c)
    ensures Get(Removed(c, dir), event) == Kept(Get(c, event), dir)
    ensures e in Get(Removed(c, dir), event) <==> e in Get(c, event) && !PointsInto(e, dir)
  {
    KeptMeans(Get(c, event), e, dir);
    if c != [] {
      RemovedMeans(c[1..], event, e, dir);
      hide Kept, PointsInto;
      if c[0].0 == event { NoSuchKey(c[1..], event); }
      RemovedHead(c, event, dir);
    }
  }

  lemma {:induction false} NoSuchKey(c: Config, event: string)
    requires forall i :: 0 <= i < |c| ==> c[i].0 != event
    ensures Get(c, event) == []
  {
    if c != [] { NoSuchKey(c[1..], event); }
  }

  lemma RemovedHead(c: Config, event: string, dir: string)
    requires c != []
    ensures Get(Removed(c, dir), event) ==
      if c[0].0 == event && Kept(c[0].1, dir) != [] then Kept(c[0].1, dir) else Get(Removed(c[1..], dir), event)
    ensures Kept([], dir) == []
  {
    var kept, rest := Kept(c[0].1, dir), Removed(c[1..], dir);
    if kept != [] {
      assert Removed(c, dir) == [(c[0].0, kept)] + rest;
      assert ([(c[0].0, kept)] + rest)[1..] == rest;
    } else {
      assert Removed(c, dir) == rest;
    }
    assert Kept([], dir) == [];
    hide Kept, Removed;
  }

  ghost predicate OursThere(c: Config, dir: string) {
    exists event, e :: e in Get(c, event) && PointsInto(e, dir)
  }

  ghost predicate Left(was: Config, now: Config, event: string, e: Entry, dir: string) {
    e in Get(now, event) <==> e in Get(was, event) && !PointsInto(e, dir)
  }

  /** Exactly the entries that do not point into the directory are left. */
  ghost predicate OthersLeft(was: Config, now: Config, dir: string) {
    forall event, e :: Left(was, now, event, e, dir)
  }

  /** Something of ours is there exactly when some event has an entry with the directory in a command. */
  lemma HoldsMeans(c: Config, dir: string)
    requires Keyed(c)
    ensures HoldsOurs(c, dir) <==> OursThere(c, dir)
  {
    if HoldsOurs(c, dir) {
      var i :| 0 <= i < |c| && AnyOurs(c[i].1, dir);
      var j :| 0 <= j < |c[i].1| && Ours(c[i].1[j], dir);
      OursMeans(c[i].1[j], dir);
      KeyAt(c, i);
      assert c[i].1[j] in Get(c, c[i].0);
    }
    if event, e :| e in Get(c, event) && PointsInto(e, dir) {
      OursMeans(e, dir);
      var i := EventAt(c, event);
      var j :| 0 <= j < |c[i].1| && c[i].1[j] == e;
      assert AnyOurs(c[i].1, dir);
    }
  }

  lemma {:induction false} KeyAt(c: Config, i: nat)
    requires Keyed(c) && i < |c|
    ensures Get(c, c[i].0) == c[i].1
  {
    if i > 0 { KeyAt(c[1..], i - 1); }
  }

  lemma {:induction false} EventAt(c: Config, event: string) returns (i: nat)
    requires Get(c, event) != []
    ensures i < |c| && c[i].1 == Get(c, event)
  {
    if c[0].0 == event {
      i := 0;
    } else {
      i := EventAt(c[1..], event);
      i := i + 1;
    }
  }

  /** The two hooks of ours: one starts the daemon with a session, one stops it. */
  function HookConfig(dir: string): Config {
    [("SessionStart", [OurEntry(Some("startup|resume"), dir + "/gmax_start.js", Some(10))]),
     ("SessionEnd", [OurEntry(None, dir + "/gmax_stop.js", Some(10))])]
  }

  function OurEntry(matcher: Option<string>, script: string, timeout: Option<int>): Entry {
    Entry(matcher, Some([Hook("command", Some("node \"" + script + "\""), timeout)]))
  }

  function Kept(es: seq<Entry>, dir: string): seq<Entry> {
    if es == [] then [] else (if Ours(es[0], dir) then [] else [es[0]]) + Kept(es[1..], dir)
  }

  /** Every event without our entries; an event left with none loses its key. */
  function Removed(c: Config, dir: string): Config {
    if c == [] then []
    else
      var kept := Kept(c[0].1, dir);
      (if kept == [] then [] else [(c[0].0, kept)]) + Removed(c[1..], dir)
  }

  function Stripped(hooks: Option<Config>, dir: string): Option<Config> {
    if hooks.None? || Removed(hooks.value, dir) == [] then None else Some(Removed(hooks.value, dir))
  }

  predicate AnyOurs(es: seq<Entry>, dir: string) {
    exists j :: 0 <= j < |es| && Ours(es[j], dir)
  }

  predicate HoldsOurs(c: Config, dir: string) {
    exists i :: 0 <= i < |c| && AnyOurs(c[i].1, dir)
  }

  predicate Changed(hooks: Option<Config>, dir: string) {
    hooks.Some? && HoldsOurs(hooks.value, dir)
  }

  /** The settings as read into memory. */
  class Settings {
    var hooks: Option<Config>
    var enableHooks: bool
    var allowBackgroundProcesses: bool

    constructor (hooks: Option<Config>, enableHooks: bool, allowBackgroundProcesses: bool)
      ensures this.hooks == hooks && this.enableHooks == enableHooks
      ensures this.allowBackgroundProcesses == allowBackgroundProcesses
    {
      this.hooks, this.enableHooks, this.allowBackgroundProcesses := hooks, enableHooks, allowBackgroundProcesses;
    }

    /** False stands for the exception; the caller saves nothing then. */
    method Install(dir: string) returns (ok: bool)
      modifies this
      ensures ok <==> !BlockedSomewhere(Existing(old(hooks)), HookConfig(dir))
      ensures enableHooks && allowBackgroundProcesses
      ensures hooks == if ok then MergeAll(Existing(old(hooks)), HookConfig(dir)) else old(hooks)
      ensures var was := Existing(old(hooks));
        && (ok <==>
              && !Blocked(Get(was, "SessionStart"), StartCommand(dir))
              && !Blocked(Get(was, "SessionEnd"), StopCommand(dir)))
        && (ok ==> hooks.Some? && Hooked(was, hooks.value, dir))
      ensures old(hooks) == None ==> ok && hooks == Some([
        ("SessionStart", [Entry(Some("startup|resume"),
          Some([Hook("command", Some("node \"" + dir + "/gmax_start.js\""), Some(10))]))]),
        ("SessionEnd", [Entry(None,
          Some([Hook("command", Some("node \"" + dir + "/gmax_stop.js\""), Some(10))]))])])
    {
      InstallMeans(Existing(hooks), dir);
      InstallFresh(dir);
      enableHooks := true;
      allowBackgroundProcesses := true;
      HookConfigOurs(dir);
      InstallLaw(Existing(hooks), HookConfig(dir));
      var merged := MergeHooks(hooks, HookConfig(dir));
      ok := merged.Some?;
      if ok { hooks := merged; }
    }

    /** Edits the settings in place and says whether anything of ours was there. */
    method RemoveGmaxHooks(dir: string) returns (changed: bool)
      requires hooks.Some? ==> Keyed(hooks.value)
      modifies this`hooks
      ensures hooks == Stripped(old(hooks), dir)
      ensures changed == Changed(old(hooks), dir)
      ensures OthersLeft(Existing(old(hooks)), Existing(hooks), dir)
      ensures changed <==> OursThere(Existing(old(hooks)), dir)
    {
      StrippedMeans(hooks, dir);
      if hooks.None? {
        return false;
      }
      var snapshot := hooks.value;
      changed := false;
      var k := 0;
      EditBounds(snapshot, dir);
      hide *;
      while k < |snapshot|
        invariant k <= |snapshot|
        invariant hooks == Some(Removed(snapshot[..k], dir) + snapshot[k..])
        invariant changed <==> HoldsOurs(snapshot[..k], dir)
      {
        var event, kept := snapshot[k].0, Kept(snapshot[k].1, dir);
        KeptShorter(snapshot[k].1, dir);
        EditStep(snapshot, k, dir);
        HoldsStep(snapshot, k, dir);
        if |kept| != |snapshot[k].1| { changed := true; }
        if kept != [] {
          hooks := Some(Set(hooks.value, event, kept));
        } else {
          hooks := Some(Delete(hooks.value, event));
        }
        k := k + 1;
      }
      if hooks.value == [] { hooks := None; }
    }
  }

  lemma StrippedMeans(hooks: Option<Config>, dir: string)
    requires hooks.Some? ==> Keyed(hooks.value)
    ensures OthersLeft(Existing(hooks), Existing(Stripped(hooks, dir)), dir)
    ensures Changed(hooks, dir) <==> OursThere(Existing(hooks), dir)
  {
    var c, left := Existing(hooks), Existing(Stripped(hooks, dir));
    assert Removed([], dir) == [];
    assert left == Removed(c, dir);
    HoldsMeans(c, dir);
    RemovedOthers(c, dir);
    hide Removed, OthersLeft, HoldsOurs, OursThere;
  }

  lemma RemovedOthers(c: Config, dir: string)
    requires Keyed(c)
    ensures OthersLeft(c, Removed(c, dir), dir)
  {
    var left := Removed(c, dir);
    forall event, e
      ensures Left(c, left, event, e, dir)
    {
      RemovedMeans(c, event, e, dir);
    }
  }

  /** Before the first event and behind the last. */
  lemma EditBounds(snapshot: Config, dir: string)
    ensures Removed(snapshot[..0], dir) + snapshot[0..] == snapshot && !HoldsOurs(snapshot[..0], dir)
    ensures var n, left := |snapshot|, Removed(snapshot, dir);
      && Removed(snapshot[..n], dir) + snapshot[n..] == left
      && (HoldsOurs(snapshot[..n], dir) <==> Changed(Some(snapshot), dir))
      && Stripped(Some(snapshot), dir) == if left == [] then None else Some(left)
  {
    var n, left := |snapshot|, Removed(snapshot, dir);
    assert snapshot[..n] == snapshot && left + snapshot[n..] == left;
    assert Removed([], dir) == [] && [] + snapshot[0..] == snapshot;
  }

  lemma HoldsStep(c: Config, k: nat, dir: string)
    requires k < |c|
    ensures HoldsOurs(c[..k + 1], dir) <==> HoldsOurs(c[..k], dir) || AnyOurs(c[k].1, dir)
  {
    var a, b := c[..k], c[..k + 1];
    assert b[k] == c[k] && forall i :: 0 <= i < k ==> b[i] == a[i];
    hide AnyOurs;
  }

  lemma {:induction false} KeptShorter(es: seq<Entry>, dir: string)
    ensures |Kept(es, dir)| <= |es|
    ensures |Kept(es, dir)| == |es| <==> !AnyOurs(es, dir)
    ensures Kept(es, dir) == es <==> !AnyOurs(es, dir)
  {
    if es != [] {
      KeptShorter(es[1..], dir);
      if AnyOurs(es[1..], dir) {
        var j :| 0 <= j < |es[1..]| && Ours(es[1..][j], dir);
        assert Ours(es[j + 1], dir);
      } else {
        assert forall j :: 1 <= j < |es| ==> es[j] == es[1..][j - 1];
      }
    }
  }

  lemma {:induction false} SetPast(a: Config, event: string, es: seq<Entry>, old_: seq<Entry>, b: Config)
    requires !HasKey(a, event)
    ensures Set(a + [(event, old_)] + b, event, es) == a + [(event, es)] + b
    ensures Delete(a + [(event, old_)] + b, event) == a + b
  {
    var c := a + [(event, old_)] + b;
    if a == [] {
      assert c[0] == (event, old_) && c[1..] == b;
    } else {
      assert a == [a[0]] + a[1..];
      KeyHeads(a[0], a[1..], event);
      SetPast(a[1..], event, es, old_, b);
      assert c[1..] == a[1..] + [(event, old_)] + b && c[0] == a[0];
    }
  }

  lemma {:induction false} RemovedKeys(c: Config, dir: string, event: string)
    ensures HasKey(Removed(c, dir), event) ==> HasKey(c, event)
  {
    if c != [] {
      var kept := Kept(c[0].1, dir);
      assert c == [c[0]] + c[1..];
      KeyHeads(c[0], c[1..], event);
      KeyHeads((c[0].0, kept), Removed(c[1..], dir), event);
      assert kept == [] ==> Removed(c, dir) == Removed(c[1..], dir);
      RemovedKeys(c[1..], dir, event);
    }
  }

  lemma {:induction false} RemovedAppend(a: Config, b: Config, dir: string)
    ensures Removed(a + b, dir) == Removed(a, dir) + Removed(b, dir)
  {
    if a == [] {
      assert a + b == b;
    } else {
      assert (a + b)[1..] == a[1..] + b && (a + b)[0] == a[0];
      RemovedAppend(a[1..], b, dir);
    }
  }

  lemma RemovedOne(x: (string, seq<Entry>), dir: string)
    ensures Removed([x], dir) == if Kept(x.1, dir) == [] then [] else [(x.0, Kept(x.1, dir))]
  {
    assert Removed([x][1..], dir) == [];
  }

  lemma KeyedApart(c: Config, k: nat)
    requires k < |c| && Keyed(c)
    ensures !HasKey(c[..k], c[k].0)
  {
  }

  lemma EditStep(snapshot: Config, k: nat, dir: string)
    requires k < |snapshot| && Keyed(snapshot)
    ensures var now := Removed(snapshot[..k], dir) + snapshot[k..];
      var kept := Kept(snapshot[k].1, dir);
      var next := Removed(snapshot[..k + 1], dir) + snapshot[k + 1..];
      next == if kept != [] then Set(now, snapshot[k].0, kept) else Delete(now, snapshot[k].0)
  {
    var a, b, event := Removed(snapshot[..k], dir), snapshot[k + 1..], snapshot[k].0;
    var kept := Kept(snapshot[k].1, dir);
    KeyedApart(snapshot, k);
    RemovedKeys(snapshot[..k], dir, event);
    SetPast(a, event, kept, snapshot[k].1, b);
    assert snapshot[k..] == [(event, snapshot[k].1)] + b;
    assert a + snapshot[k..] == a + [(event, snapshot[k].1)] + b;
    assert snapshot[..k + 1] == snapshot[..k] + [snapshot[k]];
    RemovedAppend(snapshot[..k], [snapshot[k]], dir);
    RemovedOne(snapshot[k], dir);
    hide *;
  }

  // ---------- merging: what it adds, and when it throws ----------

  lemma {:induction false} ScanPast(current: seq<Entry>, added: seq<Entry>, cmd: string)
    ensures Scan(current + added, cmd) == if Scan(current, cmd) == Absent then Scan(added, cmd) else Scan(current, cmd)
  {
    if current == [] {
      assert current + added == added;
    } else {
      assert (current + added)[1..] == current[1..] + added;
      ScanPast(current[1..], added, cmd);
    }
  }

  lemma {:induction false} ScanCommanded(es: seq<Entry>, cmd: string)
    requires AllCommanded(es)
    ensures Scan(es, cmd) != Thrown
    ensures Scan(es, cmd) == Present <==> exists i :: 0 <= i < |es| && CommandOf(es[i]) == cmd
  {
    if es != [] {
      assert Commanded(es[0]);
      assert forall i :: 0 <= i < |es[1..]| ==> es[1..][i] == es[i + 1];
      ScanCommanded(es[1..], cmd);
      if Scan(es[1..], cmd) == Present {
        var i :| 0 <= i < |es[1..]| && CommandOf(es[1..][i]) == cmd;
        assert CommandOf(es[i + 1]) == cmd;
      }
    }
  }

  /** An entry without a first hook stands ahead of every entry with this command. */
  ghost predicate Blocked(current: seq<Entry>, cmd: string) {
    exists k :: 0 <= k < |current| && FirstCommand(current[k]).Throws?
      && forall j :: 0 <= j < k ==> FirstCommand(current[j]) != Command(Some(cmd))
  }

  lemma {:induction false} ScanThrows(current: seq<Entry>, cmd: string)
    ensures Scan(current, cmd) == Thrown <==> Blocked(current, cmd)
  {
    if current != [] {
      var rest := current[1..];
      ScanThrows(rest, cmd);
      if Blocked(rest, cmd) && FirstCommand(current[0]) != Command(Some(cmd)) {
        var k :| 0 <= k < |rest| && FirstCommand(rest[k]).Throws? && forall j :: 0 <= j < k ==>
          FirstCommand(rest[j]) != Command(Some(cmd));
        assert FirstCommand(current[k + 1]).Throws?;
        assert forall j :: 0 < j < k + 1 ==> current[j] == rest[j - 1];
      }
      if k :| 0 < k < |current| && FirstCommand(current[k]).Throws? && forall j :: 0 <= j < k ==>
        FirstCommand(current[j]) != Command(Some(cmd)) {
        assert FirstCommand(rest[k - 1]).Throws?;
        assert forall j :: 0 <= j < k - 1 ==> rest[j] == current[j + 1];
        assert FirstCommand(current[0]) != Command(Some(cmd));
      }
      if FirstCommand(current[0]).Throws? { assert Blocked(current, cmd); }
    }
  }

  ghost predicate AnyBlocked(current: seq<Entry>, incoming: seq<Entry>) {
    exists i :: 0 <= i < |incoming| && Commanded(incoming[i]) && Blocked(current, CommandOf(incoming[i]))
  }

  lemma AnyBlockedHeads(current: seq<Entry>, incoming: seq<Entry>)
    requires incoming != [] && Commanded(incoming[0])
    ensures AnyBlocked(current, incoming) <==>
      Blocked(current, CommandOf(incoming[0])) || AnyBlocked(current, incoming[1..])
  {
    hide Blocked;
    var rest := incoming[1..];
    if AnyBlocked(current, rest) {
      var i :| 0 <= i < |rest| && Commanded(rest[i]) && Blocked(current, CommandOf(rest[i]));
      assert Commanded(incoming[i + 1]) && Blocked(current, CommandOf(incoming[i + 1]));
    }
    if AnyBlocked(current, incoming) {
      var i :| 0 <= i < |incoming| && Commanded(incoming[i]) && Blocked(current, CommandOf(incoming[i]));
      assert i > 0 ==> rest[i - 1] == incoming[i];
    }
  }

  /** Merging an event's entries throws exactly when a broken entry of the user's stands ahead of every
      match for some incoming command; otherwise it leaves the user's entries in front, untouched, and each
      incoming command present. */
  lemma {:induction false} MergeEntriesLaw(current: seq<Entry>, added: seq<Entry>, incoming: seq<Entry>)
    requires AllCommanded(added) && AllCommanded(incoming)
    ensures var r := MergeEntries(current + added, incoming);
      && (r.None? <==> AnyBlocked(current, incoming))
      && (r.Some? ==> current + added <= r.value && AllPresent(r.value, incoming))
    decreases |incoming|
  {
    if incoming != [] {
      var e := incoming[0];
      assert Commanded(e);
      var cmd := CommandOf(e);
      var base := current + added;
      var next := if Scan(base, cmd) == Present then added else added + [e];
      ScanPast(current, added, cmd);
      ScanThrows(current, cmd);
      ScanCommanded(added, cmd);
      AnyBlockedHeads(current, incoming);
      MergeEntriesLaw(current, next, incoming[1..]);
      assert current + (added + [e]) == base + [e];
      HeadPresent(base, e);
      var r := MergeEntries(base, incoming);
      hide Scan, Blocked, AnyBlocked;
      if r.Some? {
        StillPresent(current + next, r.value, cmd);
        PresentHeads(r.value, incoming);
      }
    }
  }

  ghost predicate AllPresent(es: seq<Entry>, incoming: seq<Entry>) {
    forall i :: 0 <= i < |incoming| && Commanded(incoming[i]) ==> Scan(es, CommandOf(incoming[i])) == Present
  }

  lemma HeadPresent(base: seq<Entry>, e: Entry)
    requires Commanded(e)
    ensures Scan(base, CommandOf(e)) == Absent ==> Scan(base + [e], CommandOf(e)) == Present
  {
    ScanPast(base, [e], CommandOf(e));
  }

  lemma StillPresent(es: seq<Entry>, more: seq<Entry>, cmd: string)
    requires es <= more && Scan(es, cmd) == Present
    ensures Scan(more, cmd) == Present
  {
    assert more == es + more[|es|..];
    ScanPast(es, more[|es|..], cmd);
  }

  lemma PresentHeads(es: seq<Entry>, incoming: seq<Entry>)
    requires incoming != [] && Commanded(incoming[0])
    ensures AllPresent(es, incoming) <==> Scan(es, CommandOf(incoming[0])) == Present && AllPresent(es, incoming[1..])
  {
    hide Scan;
    var rest := incoming[1..];
    assert forall i :: 0 <= i < |rest| ==> rest[i] == incoming[i + 1];
    assert forall i :: 0 < i < |incoming| ==> incoming[i] == rest[i - 1];
  }

  /** Merging commands that are all present changes nothing. */
  lemma {:induction false} MergePresent(es: seq<Entry>, incoming: seq<Entry>)
    requires AllCommanded(incoming) && AllPresent(es, incoming)
    ensures MergeEntries(es, incoming) == Some(es)
    decreases |incoming|
  {
    if incoming != [] {
      assert Commanded(incoming[0]);
      PresentHeads(es, incoming);
      MergePresent(es, incoming[1..]);
    }
  }

  // ---------- the whole configuration ----------

  ghost predicate BlockedSomewhere(c: Config, incoming: Config) {
    exists i :: 0 <= i < |incoming| && AnyBlocked(Get(c, incoming[i].0), incoming[i].1)
  }

  /** Every incoming event has a key and every incoming command is found. */
  ghost predicate Installed(c: Config, incoming: Config) {
    forall i :: 0 <= i < |incoming| ==> HasKey(c, incoming[i].0) && AllPresent(Get(c, incoming[i].0), incoming[i].1)
  }

  /** No event's entries are lost, reordered or changed; what is new comes behind them. */
  ghost predicate Extends(c: Config, more: Config) {
    forall event :: Get(c, event) <= Get(more, event) && (HasKey(c, event) ==> HasKey(more, event))
  }

  ghost predicate Unmentioned(incoming: Config, event: string) {
    forall i :: 0 <= i < |incoming| ==> incoming[i].0 != event
  }

  lemma {:induction false} OthersUntouched(c: Config, incoming: Config, event: string)
    requires Unmentioned(incoming, event)
    ensures var r := MergeAll(c, incoming);
      r.Some? ==> Get(r.value, event) == Get(c, event) && (HasKey(r.value, event) <==> HasKey(c, event))
    decreases |incoming|
  {
    if incoming != [] {
      var es := MergeEntries(Get(c, incoming[0].0), incoming[0].1);
      if es.Some? {
        SetGet(c, incoming[0].0, es.value, event);
        OthersUntouched(Set(c, incoming[0].0, es.value), incoming[1..], event);
      }
    }
  }

  lemma BlockedHeads(c: Config, next: Config, incoming: Config)
    requires incoming != [] && Keyed(incoming)
    requires forall event :: event != incoming[0].0 ==> Get(next, event) == Get(c, event)
    ensures BlockedSomewhere(c, incoming) <==>
      AnyBlocked(Get(c, incoming[0].0), incoming[0].1) || BlockedSomewhere(next, incoming[1..])
  {
    hide AnyBlocked, Get;
    var rest := incoming[1..];
    assert forall i :: 0 <= i < |rest| ==> rest[i] == incoming[i + 1];
    assert forall i :: 0 < i < |incoming| ==> incoming[i] == rest[i - 1];
    if BlockedSomewhere(next, rest) {
      var i :| 0 <= i < |rest| && AnyBlocked(Get(next, rest[i].0), rest[i].1);
      assert AnyBlocked(Get(c, incoming[i + 1].0), incoming[i + 1].1);
    }
    if i :| 0 < i < |incoming| && AnyBlocked(Get(c, incoming[i].0), incoming[i].1) {
      assert AnyBlocked(Get(next, rest[i - 1].0), rest[i - 1].1);
    }
  }

  lemma InstalledHeads(c: Config, incoming: Config)
    requires incoming != []
    requires HasKey(c, incoming[0].0) && AllPresent(Get(c, incoming[0].0), incoming[0].1) && Installed(c, incoming[1..])
    ensures Installed(c, incoming)
  {
    hide HasKey, AllPresent, Get;
    var rest := incoming[1..];
    assert forall i :: 0 < i < |incoming| ==> incoming[i] == rest[i - 1];
  }

  /** Installation throws exactly when some incoming event is blocked by a broken entry of the user's;
      otherwise everything is installed and nothing of the user's is disturbed. */
  lemma {:induction false} InstallLaw(c: Config, incoming: Config)
    requires Installable(incoming)
    ensures var r := MergeAll(c, incoming);
      && (r.None? <==> BlockedSomewhere(c, incoming))
      && (r.Some? ==> Installed(r.value, incoming) && Extends(c, r.value))
    decreases |incoming|
  {
    hide MergeEntries, AnyBlocked, AllPresent, HasKey, Get, Set;
    if incoming != [] {
      var event, es := incoming[0].0, incoming[0].1;
      var mine := Get(c, event);
      MergeEntriesLaw(mine, [], es);
      assert mine + [] == mine;
      var merged := MergeEntries(mine, es);
      var next := if merged.Some? then Set(c, event, merged.value) else c;
      forall other
        ensures Get(next, other) == if merged.Some? && other == event then merged.value else Get(c, other)
        ensures HasKey(next, other) <==> (merged.Some? && other == event) || HasKey(c, other)
      {
        if merged.Some? { SetGet(c, event, merged.value, other); }
      }
      InstallLaw(next, incoming[1..]);
      OthersUntouched(next, incoming[1..], event);
      BlockedHeads(c, next, incoming);
      var r := MergeAll(next, incoming[1..]);
      InstallStep(c, next, incoming, merged, r);
    }
  }

  lemma InstallStep(c: Config, next: Config, incoming: Config, merged: Option<seq<Entry>>, r: Option<Config>)
    requires incoming != []
    requires merged.Some? && r.Some? ==>
      && Installed(r.value, incoming[1..]) && Extends(next, r.value) && Extends(c, next)
      && Get(r.value, incoming[0].0) == merged.value && HasKey(r.value, incoming[0].0)
        && AllPresent(merged.value, incoming[0].1)
    ensures merged.Some? && r.Some? ==> Installed(r.value, incoming) && Extends(c, r.value)
  {
    if merged.Some? && r.Some? {
      InstalledHeads(r.value, incoming);
      hide Get, HasKey, AllPresent, Installed;
      forall event
        ensures Get(c, event) <= Get(r.value, event) && (HasKey(c, event) ==> HasKey(r.value, event))
      {
        assert Get(c, event) <= Get(next, event) <= Get(r.value, event);
      }
    }
  }

  lemma {:induction false} MergeInstalled(c: Config, incoming: Config)
    requires Installable(incoming) && Installed(c, incoming)
    ensures MergeAll(c, incoming) == Some(c)
    decreases |incoming|
  {
    if incoming != [] {
      var event := incoming[0].0;
      MergePresent(Get(c, event), incoming[0].1);
      SetSame(c, event);
      assert Installed(c, incoming[1..]) by {
        hide HasKey, AllPresent, Get;
        assert forall i :: 0 <= i < |incoming[1..]| ==> incoming[1..][i] == incoming[i + 1];
      }
      MergeInstalled(c, incoming[1..]);
    }
  }

  /** Installing twice is installing once. */
  lemma InstallIdempotent(c: Config, incoming: Config)
    requires Installable(incoming) && MergeAll(c, incoming).Some?
    ensures MergeAll(MergeAll(c, incoming).value, incoming) == MergeAll(c, incoming)
  {
    InstallLaw(c, incoming);
    MergeInstalled(MergeAll(c, incoming).value, incoming);
  }

  // ---------- uninstalling what was installed ----------

  lemma {:induction false} KeptAppend(a: seq<Entry>, b: seq<Entry>, dir: string)
    ensures Kept(a + b, dir) == Kept(a, dir) + Kept(b, dir)
  {
    hide Ours;
    if a == [] {
      assert a + b == b;
    } else {
      var head := if Ours(a[0], dir) then [] else [a[0]];
      assert (a + b)[1..] == a[1..] + b && (a + b)[0] == a[0];
      KeptAppend(a[1..], b, dir);
      assert Kept(a + b, dir) == head + Kept(a[1..] + b, dir);
    }
  }

  ghost predicate AllEntriesOurs(es: seq<Entry>, dir: string) {
    forall j :: 0 <= j < |es| ==> Ours(es[j], dir)
  }

  lemma {:induction false} MergeKeeps(current: seq<Entry>, incoming: seq<Entry>, dir: string)
    requires AllEntriesOurs(incoming, dir)
    ensures var r := MergeEntries(current, incoming);
      r.Some? ==> Kept(r.value, dir) == Kept(current, dir)
    decreases |incoming|
  {
    if incoming != [] {
      var e := incoming[0];
      assert Ours(e, dir);
      MergeKeeps(current, incoming[1..], dir);
      MergeKeeps(current + [e], incoming[1..], dir);
      KeptAppend(current, [e], dir);
      assert Kept([e], dir) == [];
    }
  }

  lemma {:induction false} SetKeepsRemoved(c: Config, event: string, es: seq<Entry>, dir: string)
    requires Kept(es, dir) == Kept(Get(c, event), dir)
    ensures Removed(Set(c, event, es), dir) == Removed(c, dir)
  {
    if c == [] {
      RemovedOne((event, es), dir);
    } else if c[0].0 == event {
      assert Set(c, event, es)[1..] == c[1..];
    } else {
      SetKeepsRemoved(c[1..], event, es, dir);
      assert Set(c, event, es)[1..] == Set(c[1..], event, es);
    }
  }

  /** Installing adds nothing that uninstalling leaves behind. */
  lemma {:induction false} MergeThenRemove(c: Config, incoming: Config, dir: string)
    requires forall i :: 0 <= i < |incoming| ==> AllEntriesOurs(incoming[i].1, dir)
    ensures var r := MergeAll(c, incoming);
      r.Some? ==> Removed(r.value, dir) == Removed(c, dir)
    decreases |incoming|
  {
    if incoming != [] {
      var event := incoming[0].0;
      MergeKeeps(Get(c, event), incoming[0].1, dir);
      var es := MergeEntries(Get(c, event), incoming[0].1);
      if es.Some? {
        SetKeepsRemoved(c, event, es.value, dir);
        MergeThenRemove(Set(c, event, es.value), incoming[1..], dir);
      }
    }
  }

  /** The entry's first command is what points into our directory. */
  ghost predicate OursFirst(es: seq<Entry>, dir: string) {
    forall j :: 0 <= j < |es| ==> Commanded(es[j]) && Includes(CommandOf(es[j]), dir)
  }

  ghost predicate AllOurs(c: Config, dir: string) {
    forall i :: 0 <= i < |c| ==> OursFirst(c[i].1, dir)
  }

  lemma OurEntryOurs(matcher: Option<string>, dir: string, name: string, timeout: Option<int>)
    ensures var e := OurEntry(matcher, dir + name, timeout);
      Commanded(e) && Includes(CommandOf(e), dir) && Ours(e, dir)
  {
    var e := OurEntry(matcher, dir + name, timeout);
    var text := CommandOf(e);
    assert text == "node \"" + dir + name + "\"";
    assert text[6..] == dir + (name + "\"");
    assert dir <= text[6..];
    assert OurHook(e.hooks.value[0], dir);
  }

  lemma HookConfigOurs(dir: string)
    ensures Installable(HookConfig(dir)) && AllOurs(HookConfig(dir), dir)
  {
    OurEntryOurs(Some("startup|resume"), dir, "/gmax_start.js", Some(10));
    OurEntryOurs(None, dir, "/gmax_stop.js", Some(10));
    hide Commanded, Includes, OurEntry, Ours;
  }

  lemma FirstIsOurs(e: Entry, dir: string)
    requires Commanded(e) && Includes(CommandOf(e), dir)
    ensures Ours(e, dir)
  {
    assert OurHook(e.hooks.value[0], dir);
  }

  lemma {:induction false} PresentIsOurs(es: seq<Entry>, cmd: string, dir: string)
    requires Scan(es, cmd) == Present && Includes(cmd, dir)
    ensures AnyOurs(es, dir)
  {
    if FirstCommand(es[0]) == Command(Some(cmd)) {
      FirstIsOurs(es[0], dir);
    } else {
      PresentIsOurs(es[1..], cmd, dir);
      var j :| 0 <= j < |es[1..]| && Ours(es[1..][j], dir);
      assert Ours(es[j + 1], dir);
    }
  }

  lemma {:induction false} GetIsOurs(c: Config, event: string, dir: string)
    requires AnyOurs(Get(c, event), dir)
    ensures HoldsOurs(c, dir)
  {
    if c[0].0 == event {
      assert AnyOurs(c[0].1, dir);
    } else {
      GetIsOurs(c[1..], event, dir);
      var i :| 0 <= i < |c[1..]| && AnyOurs(c[1..][i].1, dir);
      assert AnyOurs(c[i + 1].1, dir);
    }
  }

  /** The hooks in the file after an uninstall: it is rewritten only when something of ours was found. */
  ghost function Uninstalled(hooks: Option<Config>, dir: string): Option<Config> {
    if Changed(hooks, dir) then Stripped(hooks, dir) else hooks
  }

  /** Where no command has the directory in it, the file stays as it is, whatever else it holds. */
  lemma UninstallKeeps(hooks: Option<Config>, dir: string)
    requires hooks.Some? ==> Keyed(hooks.value)
    requires !OursThere(Existing(hooks), dir)
    ensures Uninstalled(hooks, dir) == hooks
  {
    StrippedMeans(hooks, dir);
  }

  /** Settings without a hooks key, or with one that has no entry of ours, no empty event list and at least
      one event. */
  ghost predicate Clean(hooks: Option<Config>, dir: string) {
    hooks.Some? ==>
      && hooks.value != []
      && forall i :: 0 <= i < |hooks.value| ==> hooks.value[i].1 != [] && !AnyOurs(hooks.value[i].1, dir)
  }

  lemma {:induction false} RemovedShorter(c: Config, dir: string)
    ensures |Removed(c, dir)| <= |c|
    ensures Removed(c, dir) == c <==> forall i :: 0 <= i < |c| ==> c[i].1 != [] && !AnyOurs(c[i].1, dir)
  {
    if c != [] {
      var kept, rest := Kept(c[0].1, dir), Removed(c[1..], dir);
      KeptShorter(c[0].1, dir);
      RemovedShorter(c[1..], dir);
      assert forall i :: 0 <= i < |c[1..]| ==> c[1..][i] == c[i + 1];
      assert forall i :: 0 < i < |c| ==> c[i] == c[1..][i - 1];
      RemovedSplits(c, kept, rest, dir);
      hide AnyOurs, Kept, Removed;
    }
  }

  lemma RemovedSplits(c: Config, kept: seq<Entry>, rest: Config, dir: string)
    requires c != [] && kept == Kept(c[0].1, dir) && rest == Removed(c[1..], dir) && |rest| <= |c[1..]|
    ensures |Removed(c, dir)| <= |c|
    ensures Removed(c, dir) == c <==> kept != [] && kept == c[0].1 && rest == c[1..]
  {
    assert c == [c[0]] + c[1..];
    var r := Removed(c, dir);
    if kept != [] {
      assert r == [(c[0].0, kept)] + rest;
      assert r == c ==> r[0] == c[0] && r[1..] == c[1..];
      assert r[1..] == rest;
    }
  }

  lemma StrippedSame(hooks: Option<Config>, dir: string)
    ensures Stripped(hooks, dir) == hooks <==> Clean(hooks, dir)
  {
    if hooks.Some? { RemovedShorter(hooks.value, dir); }
  }

  /** After an install that did not throw, an uninstall leaves exactly the user's own entries; that is what
      was there before if and only if the settings were clean. */
  lemma UninstallUndoesInstall(hooks: Option<Config>, dir: string)
    requires !BlockedSomewhere(Existing(hooks), HookConfig(dir))
    ensures var installed := MergeAll(Existing(hooks), HookConfig(dir));
      && installed.Some?
      && Uninstalled(installed, dir) == Stripped(hooks, dir)
      && (Uninstalled(installed, dir) == hooks <==> Clean(hooks, dir))
  {
    var c, incoming := Existing(hooks), HookConfig(dir);
    HookConfigOurs(dir);
    InstallLaw(c, incoming);
    var installed := MergeAll(c, incoming);
    InstalledIsOurs(installed.value, dir);
    OursThroughout(incoming, dir);
    MergeThenRemove(c, incoming, dir);
    StrippedSame(hooks, dir);
    assert Removed([], dir) == [];
    hide MergeAll, Removed, HookConfig, BlockedSomewhere, Clean, HoldsOurs;
  }

  lemma OursThroughout(c: Config, dir: string)
    requires AllOurs(c, dir)
    ensures forall i :: 0 <= i < |c| ==> AllEntriesOurs(c[i].1, dir)
  {
    hide Commanded, Includes, CommandOf, Ours;
    forall i | 0 <= i < |c|
      ensures AllEntriesOurs(c[i].1, dir)
    {
      assert OursFirst(c[i].1, dir);
      forall j | 0 <= j < |c[i].1| ensures Ours(c[i].1[j], dir) { FirstIsOurs(c[i].1[j], dir); }
    }
  }

  lemma InstalledIsOurs(c: Config, dir: string)
    requires Installed(c, HookConfig(dir))
    ensures HoldsOurs(c, dir)
  {
    var incoming := HookConfig(dir);
    HookConfigOurs(dir);
    var event, e := incoming[0].0, incoming[0].1[0];
    assert OursFirst(incoming[0].1, dir) && AllPresent(Get(c, event), incoming[0].1);
    PresentIsOurs(Get(c, event), CommandOf(e), dir);
    GetIsOurs(c, event, dir);
  }

  /** An empty hooks object is clean of anything of ours, yet it does not come back. */
  lemma EmptyHooksLost(dir: string)
    ensures Uninstalled(MergeAll([], HookConfig(dir)), dir) == None
    ensures !Changed(Some([]), dir)
  {
    var nothing: Option<Config> := Some([]);
    assert !BlockedSomewhere([], HookConfig(dir)) by {
      forall i | 0 <= i < |HookConfig(dir)|
        ensures !AnyBlocked(Get([], HookConfig(dir)[i].0), HookConfig(dir)[i].1)
      {
      }
    }
    UninstallUndoesInstall(nothing, dir);
    assert Removed([], dir) == [];
  }

  // ---------- the two hooks, spelled out ----------

  ghost function StartCommand(dir: string): string {
    "node \"" + dir + "/gmax_start.js\""
  }

  ghost function StopCommand(dir: string): string {
    "node \"" + dir + "/gmax_stop.js\""
  }

  ghost function Keys(c: Config): (r: seq<string>)
    ensures |r| == |c|
  {
    seq(|c|, i requires 0 <= i < |c| => c[i].0)
  }

  /** Some entry's first hook runs this command. */
  ghost predicate RunsFirst(es: seq<Entry>, cmd: string) {
    exists i :: 0 <= i < |es| && FirstCommand(es[i]) == Command(Some(cmd))
  }

  /** An event with one entry more, unless that entry's command was there. */
  ghost predicate Gains(was: Config, now: Config, event: string, cmd: string, e: Entry) {
    Get(now, event) == Get(was, event) + (if RunsFirst(Get(was, event), cmd) then [] else [e])
  }

  ghost function NewKey(c: Config, event: string): seq<string> {
    if event in Keys(c) then [] else [event]
  }

  /** One entry more for the start and the end of a session, each unless it was there; every other event as it
      was, and new events behind the user's. */
  ghost predicate Hooked(was: Config, now: Config, dir: string) {
    && Gains(was, now, "SessionStart", StartCommand(dir),
         Entry(Some("startup|resume"), Some([Hook("command", Some(StartCommand(dir)), Some(10))])))
    && Gains(was, now, "SessionEnd", StopCommand(dir),
         Entry(None, Some([Hook("command", Some(StopCommand(dir)), Some(10))])))
    && (forall event :: event != "SessionStart" && event != "SessionEnd" ==> Get(now, event) == Get(was, event))
    && Keys(now) == Keys(was) + NewKey(was, "SessionStart") + NewKey(was, "SessionEnd")
  }

  lemma {:induction false} SetKeys(c: Config, event: string, es: seq<Entry>)
    ensures Keys(Set(c, event, es)) == Keys(c) + NewKey(c, event)
  {
    if c != [] {
      SetKeys(c[1..], event, es);
      assert Keys(c) == [c[0].0] + Keys(c[1..]);
      assert Keys(Set(c, event, es)) == [c[0].0] + Keys(Set(c, event, es)[1..]);
      if c[0].0 == event {
        assert Set(c, event, es)[1..] == c[1..];
      } else {
        assert Set(c, event, es)[1..] == Set(c[1..], event, es);
      }
    }
  }

  lemma {:induction false} ScanFinds(es: seq<Entry>, cmd: string)
    ensures Scan(es, cmd) != Thrown ==> (Scan(es, cmd) == Present <==> RunsFirst(es, cmd))
  {
    if es != [] {
      ScanFinds(es[1..], cmd);
      if RunsFirst(es[1..], cmd) {
        var i :| 0 <= i < |es[1..]| && FirstCommand(es[1..][i]) == Command(Some(cmd));
        assert FirstCommand(es[i + 1]) == Command(Some(cmd));
      }
      if i :| 0 < i < |es| && FirstCommand(es[i]) == Command(Some(cmd)) {
        assert FirstCommand(es[1..][i - 1]) == Command(Some(cmd));
      }
    }
  }

  lemma MergeOne(es: seq<Entry>, e: Entry, cmd: string)
    requires FirstCommand(e) == Command(Some(cmd))
    ensures MergeEntries(es, [e]) ==
      if Blocked(es, cmd) then None else Some(es + (if RunsFirst(es, cmd) then [] else [e]))
  {
    ScanThrows(es, cmd);
    ScanFinds(es, cmd);
    hide Scan, Blocked, RunsFirst;
    assert [e][1..] == [];
    assert MergeEntries(es, []) == Some(es) && MergeEntries(es + [e], []) == Some(es + [e]);
    assert es + [] == es;
  }

  lemma InstallMeans(was: Config, dir: string)
    ensures var now := MergeAll(was, HookConfig(dir));
      && (now.Some? <==>
            !Blocked(Get(was, "SessionStart"), StartCommand(dir)) && !Blocked(Get(was, "SessionEnd"), StopCommand(dir)))
      && (now.Some? ==> Hooked(was, now.value, dir))
  {
    var incoming := HookConfig(dir);
    var start, stop := incoming[0].1[0], incoming[1].1[0];
    CommandsSpelled(dir);
    MergeOne(Get(was, "SessionStart"), start, StartCommand(dir));
    var first := MergeEntries(Get(was, "SessionStart"), [start]);
    if first.Some? {
      var mid := Set(was, "SessionStart", first.value);
      forall event
        ensures Get(mid, event) == if event == "SessionStart" then first.value else Get(was, event)
      {
        SetGet(was, "SessionStart", first.value, event);
      }
      SetKeys(was, "SessionStart", first.value);
      MergeOne(Get(mid, "SessionEnd"), stop, StopCommand(dir));
      var second := MergeEntries(Get(mid, "SessionEnd"), [stop]);
      if second.Some? {
        forall event
          ensures Get(Set(mid, "SessionEnd", second.value), event)
               == if event == "SessionEnd" then second.value else Get(mid, event)
        {
          SetGet(mid, "SessionEnd", second.value, event);
        }
        SetKeys(mid, "SessionEnd", second.value);
      }
      MergeTwo(was, incoming);
    } else {
      MergeTwo(was, incoming);
    }
    hide MergeAll, MergeEntries, Get, Set, Keys, Blocked, RunsFirst, HookConfig;
  }

  lemma MergeTwo(c: Config, incoming: Config)
    requires |incoming| == 2
    ensures var first := MergeEntries(Get(c, incoming[0].0), incoming[0].1);
      MergeAll(c, incoming) ==
        if first == None then None
        else
          var mid := Set(c, incoming[0].0, first.value);
          var second := MergeEntries(Get(mid, incoming[1].0), incoming[1].1);
          if second == None then None else Some(Set(mid, incoming[1].0, second.value))
  {
    hide MergeEntries, Get, Set;
    var rest := incoming[1..];
    assert rest[0] == incoming[1] && rest[1..] == [];
    var first := MergeEntries(Get(c, incoming[0].0), incoming[0].1);
    if first.Some? {
      var mid := Set(c, incoming[0].0, first.value);
      var second := MergeEntries(Get(mid, rest[0].0), rest[0].1);
      if second.Some? {
        var all := Set(mid, rest[0].0, second.value);
        assert MergeAll(all, []) == Some(all);
      }
      assert MergeAll(mid, rest) == if second == None then None else Some(Set(mid, rest[0].0, second.value));
    }
  }

  lemma CommandsSpelled(dir: string)
    ensures var c := HookConfig(dir);
      && |c| == 2 && c[0].0 == "SessionStart" && c[1].0 == "SessionEnd"
      && c[0].1 == [Entry(Some("startup|resume"), Some([Hook("command", Some(StartCommand(dir)), Some(10))]))]
      && c[1].1 == [Entry(None, Some([Hook("command", Some(StopCommand(dir)), Some(10))]))]
  {
    assert "node \"" + (dir + "/gmax_start.js") + "\"" == StartCommand(dir);
    assert "node \"" + (dir + "/gmax_stop.js") + "\"" == StopCommand(dir);
  }

  lemma InstallFresh(dir: string)
    ensures MergeAll([], HookConfig(dir)) == Some([
      ("SessionStart", [Entry(Some("startup|resume"), Some([Hook("command", Some(StartCommand(dir)), Some(10))]))]),
      ("SessionEnd", [Entry(None, Some([Hook("command", Some(StopCommand(dir)), Some(10))]))])])
  {
    CommandsSpelled(dir);
    var c := HookConfig(dir);
    MergeTwo([], c);
    var none: seq<Entry> := [];
    assert !Blocked(none, StartCommand(dir)) && !Blocked(none, StopCommand(dir));
    assert !RunsFirst(none, StartCommand(dir)) && !RunsFirst(none, StopCommand(dir));
    MergeOne(none, c[0].1[0], StartCommand(dir));
    MergeOne(none, c[1].1[0], StopCommand(dir));
    assert c[0].1 == [c[0].1[0]] && c[1].1 == [c[1].1[0]] && none + c[0].1 == c[0].1 && none + c[1].1 == c[1].1;
    SetTwice(c[0].1, c[1].1);
    hide MergeAll, MergeEntries, Blocked, RunsFirst;
  }

  lemma SetTwice(a: seq<Entry>, b: seq<Entry>)
    ensures Get([], "SessionStart") == []
    ensures var mid := Set([], "SessionStart", a);
      Get(mid, "SessionEnd") == [] && Set(mid, "SessionEnd", b) == [("SessionStart", a), ("SessionEnd", b)]
  {
    var mid := Set([], "SessionStart", a);
    assert mid == [("SessionStart", a)] && mid[1..] == [];
    assert Set(mid[1..], "SessionEnd", b) == [("SessionEnd", b)];
  }
}
