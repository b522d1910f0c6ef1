/** Allow-list entries: compiling a glob to a regular expression, and path containment. */
module PathGlobs {
  import opened Basics

  // ---------- the part of the regular-expression language a compiled glob uses ----------

  datatype Atom = AnyChar | NotSlash | Exactly(c: char)

  datatype Item = One(atom: Atom) | Many(atom: Atom)

  predicate LineEnd(c: char) {
    c == '\n' || c == '\r' || c == '\U{2028}' || c == '\U{2029}'
  }

  predicate Accepts(a: Atom, c: char) {
    match a
    case AnyChar => !LineEnd(c)
    case NotSlash => c != '/'
    case Exactly(x) => c == x
  }

  predicate Special(c: char) {
    c in ".+?^${}()|[]\\"
  }

  /** The characters with a meaning of their own in a regular expression. */
  predicate Syntax(c: char) {
    c in {'^', '$', '\\', '.', '*', '+', '?', '(', ')', '[', ']', '{', '}', '|'}
  }

  /** One atom of a pattern's source text and where it ends. An unescaped special character that is
      neither a point nor this one class is outside the sublanguage. */
  function ParseAtom(src: string): (r: Option<(Atom, string)>)
    requires src != ""
    ensures r.Some? ==> |r.value.1| < |src|
  {
    if src[0] == '\\' then
      if |src| >= 2 && Syntax(src[1]) then Some((Exactly(src[1]), src[2..])) else None
    else if src[0] == '.' then Some((AnyChar, src[1..]))
    else if "[^/]" <= src then Some((NotSlash, src[4..]))
    else if Syntax(src[0]) then None
    else Some((Exactly(src[0]), src[1..]))
  }

  /** Reads a pattern: atoms, each of which a following star repeats. */
  function ParseRegex(src: string): Option<seq<Item>>
    decreases |src|
  {
    if src == "" then Some([])
    else
      match ParseAtom(src)
      case None => None
      case Some((a, rest)) =>
        var starred := rest != "" && rest[0] == '*';
        match ParseRegex(if starred then rest[1..] else rest)
        case None => None
        case Some(items) => Some([if starred then Many(a) else One(a)] + items)
  }

  /** Whether the whole text matches: the pattern is anchored at both ends. */
  predicate Matches(items: seq<Item>, s: string)
    decreases |items| + |s|
  {
    if items == [] then s == ""
    else match items[0]
      case One(a) => s != "" && Accepts(a, s[0]) && Matches(items[1..], s[1..])
      case Many(a) => Matches(items[1..], s) || (s != "" && Accepts(a, s[0]) && Matches(items, s[1..]))
  }

  // ---------- the compiler ----------

  function Escaped(c: char): string {
    if Special(c) then ['\\', c] else [c]
  }

  /** What the compiler appends for the rest of a pattern. */
  function Compiled(pattern: string): string {
    if pattern == "" then ""
    else if pattern[0] == '*' then
      if |pattern| > 1 && pattern[1] == '*' then ".*" + Compiled(pattern[2..]) else "[^/]*" + Compiled(pattern[1..])
    else Escaped(pattern[0]) + Compiled(pattern[1..])
  }

  method GlobToRegExp(pattern: string) returns (out: string)
    ensures out == Compiled(pattern)
  {
    out := "";
    var i := 0;
    while i < |pattern|
      invariant i <= |pattern| && out + Compiled(pattern[i..]) == Compiled(pattern)
    {
      hide Compiled;
      CompiledStep(pattern, i, out);
      var ch := pattern[i];
      if ch == '*' {
        if i + 1 < |pattern| && pattern[i + 1] == '*' {
          out := out + ".*";
          i := i + 1;
        } else {
          out := out + "[^/]*";
        }
      } else {
        out := out + Escaped(ch);
      }
      i := i + 1;
    }
  }

  lemma CompiledStep(pattern: string, i: nat, out: string)
    requires i < |pattern|
    ensures var double := i + 1 < |pattern| && pattern[i + 1] == '*';
      out + Compiled(pattern[i..]) ==
        if pattern[i] != '*' then out + Escaped(pattern[i]) + Compiled(pattern[i + 1..])
        else if double then out + ".*" + Compiled(pattern[i + 2..])
        else out + "[^/]*" + Compiled(pattern[i + 1..])
  {
    var rest := pattern[i..];
    assert rest[1..] == pattern[i + 1..];
    if |rest| > 1 { assert rest[2..] == pattern[i + 2..]; }
  }

  // ---------- what a glob means ----------

  /** A character that ends no line. */
  ghost predicate Inline(c: char) {
    c != '\n' && c != '\r' && c != '\U{2028}' && c != '\U{2029}'
  }

  /** The reference meaning: `**` is any text, `*` any text without a slash, anything else itself. With
      `oneLine`, the text under `**` must hold no line end. */
  ghost predicate Glob(pattern: string, s: string, oneLine: bool)
    decreases |pattern|
  {
    if pattern == "" then s == ""
    else if pattern[0] == '*' then
      if |pattern| > 1 && pattern[1] == '*' then
        exists k :: 0 <= k <= |s| && (oneLine ==> forall i :: 0 <= i < k ==> Inline(s[i]))
          && Glob(pattern[2..], s[k..], oneLine)
      else
        exists k :: 0 <= k <= |s| && (forall i :: 0 <= i < k ==> s[i] != '/') && Glob(pattern[1..], s[k..], oneLine)
    else s != "" && s[0] == pattern[0] && Glob(pattern[1..], s[1..], oneLine)
  }

  /** The items a pattern stands for. */
  function ItemsOf(pattern: string): seq<Item> {
    if pattern == "" then []
    else if pattern[0] == '*' then
      if |pattern| > 1 && pattern[1] == '*' then [Many(AnyChar)] + ItemsOf(pattern[2..])
        else [Many(NotSlash)] + ItemsOf(pattern[1..])
    else [One(Exactly(pattern[0]))] + ItemsOf(pattern[1..])
  }

  lemma CompiledOpens(pattern: string)
    ensures Compiled(pattern) != "" ==> Compiled(pattern)[0] != '*'
  {
  }

  /** A pattern read behind one more item. */
  function Behind(item: Item, rest: Option<seq<Item>>): Option<seq<Item>> {
    match rest
    case None => None
    case Some(items) => Some([item] + items)
  }

  lemma ParseStar(more: string)
    ensures ParseRegex(".*" + more) == Behind(Many(AnyChar), ParseRegex(more))
    ensures ParseRegex("[^/]*" + more) == Behind(Many(NotSlash), ParseRegex(more))
  {
    var a, b := ".*" + more, "[^/]*" + more;
    assert a[1..] == "*" + more && ("*" + more)[1..] == more;
    assert b[..4] == "[^/]" && b[4..] == "*" + more;
  }

  lemma ParseEscaped(c: char, more: string)
    requires c != '*' && (more != "" ==> more[0] != '*')
    ensures ParseRegex(Escaped(c) + more) == Behind(One(Exactly(c)), ParseRegex(more))
  {
    var src := Escaped(c) + more;
    if Special(c) {
      assert src[2..] == more;
    } else {
      assert src[1..] == more;
      assert src[0] == c && c != '[' && c != '.';
    }
  }

  /** The compiled text reads back as exactly the pattern's items: every character is escaped that must
      be, and no star lands behind a literal. */
  lemma {:induction false} CompiledParses(pattern: string)
    ensures ParseRegex(Compiled(pattern)) == Some(ItemsOf(pattern))
  {
    if pattern != "" {
      if pattern[0] == '*' {
        var rest := if |pattern| > 1 && pattern[1] == '*' then pattern[2..] else pattern[1..];
        CompiledParses(rest);
        ParseStar(Compiled(rest));
      } else {
        CompiledParses(pattern[1..]);
        CompiledOpens(pattern[1..]);
        ParseEscaped(pattern[0], Compiled(pattern[1..]));
      }
    }
  }

  ghost predicate AllAccepted(a: Atom, s: string, k: nat)
    requires k <= |s|
  {
    forall i :: 0 <= i < k ==> Accepts(a, s[i])
  }

  /** A repeated atom takes some accepted stretch and leaves the rest to the rest. */
  lemma {:induction false} ManyMatches(a: Atom, rest: seq<Item>, s: string)
    ensures Matches([Many(a)] + rest, s) <==> exists k :: 0 <= k <= |s| && AllAccepted(a, s, k) && Matches(rest, s[k..])
    decreases |s|
  {
    var items := [Many(a)] + rest;
    assert items[1..] == rest && s[0..] == s;
    if s != "" {
      ManyMatches(a, rest, s[1..]);
      if Accepts(a, s[0]) && Matches(items, s[1..]) {
        var k :| 0 <= k <= |s| - 1 && AllAccepted(a, s[1..], k) && Matches(rest, s[1..][k..]);
        assert s[1..][k..] == s[k + 1..];
        assert forall i :: 0 < i < k + 1 ==> s[i] == s[1..][i - 1];
        assert AllAccepted(a, s, k + 1);
      }
      if k :| 0 < k <= |s| && AllAccepted(a, s, k) && Matches(rest, s[k..]) {
        assert Accepts(a, s[0]) && s[1..][k - 1..] == s[k..];
        assert AllAccepted(a, s[1..], k - 1);
      }
    }
    if Matches(rest, s) { assert AllAccepted(a, s, 0) && Matches(rest, s[0..]); }
  }

  lemma {:induction false} ItemsMatchGlob(pattern: string, s: string)
    ensures Matches(ItemsOf(pattern), s) <==> Glob(pattern, s, true)
    decreases |pattern|
  {
    if pattern != "" {
      if pattern[0] == '*' {
        var double := |pattern| > 1 && pattern[1] == '*';
        var rest := if double then pattern[2..] else pattern[1..];
        var a := if double then AnyChar else NotSlash;
        ManyMatches(a, ItemsOf(rest), s);
        forall k | 0 <= k <= |s|
          ensures Matches(ItemsOf(rest), s[k..]) <==> Glob(rest, s[k..], true)
        {
          ItemsMatchGlob(rest, s[k..]);
        }
        StarStep(rest, s, double);
      } else if s != "" {
        ItemsMatchGlob(pattern[1..], s[1..]);
        assert ItemsOf(pattern)[1..] == ItemsOf(pattern[1..]);
      }
    }
  }

  /** The two readings of a star, side by side. */
  lemma StarStep(rest: string, s: string, double: bool)
    requires forall k :: 0 <= k <= |s| ==> (Matches(ItemsOf(rest), s[k..]) <==> Glob(rest, s[k..], true))
    ensures var a := if double then AnyChar else NotSlash;
      (exists k :: 0 <= k <= |s| && AllAccepted(a, s, k) && Matches(ItemsOf(rest), s[k..])) <==>
      if double then
        exists k :: 0 <= k <= |s| && (forall i :: 0 <= i < k ==> Inline(s[i])) && Glob(rest, s[k..], true)
      else
        exists k :: 0 <= k <= |s| && (forall i :: 0 <= i < k ==> s[i] != '/') && Glob(rest, s[k..], true)
  {
    hide Matches, ItemsOf, Glob;
  }

  ghost predicate NoLineEnds(s: string) {
    forall i :: 0 <= i < |s| ==> Inline(s[i])
  }

  lemma {:induction false} GlobOnOneLine(pattern: string, s: string)
    requires NoLineEnds(s)
    ensures Glob(pattern, s, true) <==> Glob(pattern, s, false)
    decreases |pattern|
  {
    if pattern != "" {
      if pattern[0] == '*' {
        var rest := if |pattern| > 1 && pattern[1] == '*' then pattern[2..] else pattern[1..];
        forall k | 0 <= k <= |s|
          ensures Glob(rest, s[k..], true) <==> Glob(rest, s[k..], false)
        {
          GlobOnOneLine(rest, s[k..]);
        }
      } else if s != "" {
        GlobOnOneLine(pattern[1..], s[1..]);
      }
    }
  }

  predicate PatternAccepts(pattern: string, target: string) {
    var parsed := ParseRegex(Compiled(pattern));
    parsed.Some? && Matches(parsed.value, target)
  }

  /** The compiled regular expression accepts a text exactly when the glob does, reading `**` as "any text
      on one line"; on texts without line ends that is the glob itself. */
  lemma GlobCompiles(pattern: string, s: string)
    ensures var parsed := ParseRegex(Compiled(pattern));
      && parsed.Some?
      && (Matches(parsed.value, s) <==> Glob(pattern, s, true))
      && (NoLineEnds(s) ==> (Matches(parsed.value, s) <==> Glob(pattern, s, false)))
  {
    CompiledParses(pattern);
    ItemsMatchGlob(pattern, s);
    if NoLineEnds(s) { GlobOnOneLine(pattern, s); }
  }

  /** A path with a line end can satisfy the glob and fail its compilation. */
  lemma LineEndsDiffer()
    ensures Glob("**", "\n", false) && !PatternAccepts("**", "\n")
  {
    var p, s := "**", "\n";
    assert p[2..] == "" && s[1..] == "" && s[0..] == s;
    assert Glob(p[2..], s[1..], false);
    GlobCompiles(p, s);
    assert !Inline(s[0]);
    forall k | 0 <= k <= |s| && forall i :: 0 <= i < k ==> Inline(s[i])
      ensures !Glob(p[2..], s[k..], true)
    {
      assert k == 0;
    }
  }

  // ---------- on which patterns the compilation is the glob ----------

  ghost predicate DoubleStar(pattern: string) {
    exists i: nat :: i + 1 < |pattern| && pattern[i] == '*' && pattern[i + 1] == '*'
  }

  /** How often a newline stands in front of a slash. */
  ghost function Steps(s: string): nat {
    if |s| < 2 then 0 else (if s[0] == '\n' && s[1] == '/' then 1 else 0) + Steps(s[1..])
  }

  /** Cutting a text loses one step at most, the one that is cut. */
  lemma {:induction false} StepsCut(s: string, k: nat)
    requires k <= |s|
    ensures Steps(s) <= Steps(s[..k]) + 1 + Steps(s[k..])
    decreases k
  {
    if k == 0 {
      assert s[0..] == s;
    } else if k > 1 {
      StepsCut(s[1..], k - 1);
      assert s[..k][1..] == s[1..][..k - 1] && s[1..][k - 1..] == s[k..];
      assert s[..k][0] == s[0] && s[..k][1] == s[1];
    }
  }

  lemma {:induction false} NoSteps(s: string)
    requires (forall i :: 0 <= i < |s| ==> s[i] != '\n') || (forall i :: 0 <= i < |s| ==> s[i] != '/')
    ensures Steps(s) == 0
  {
    if |s| >= 2 { NoSteps(s[1..]); }
  }

  /** With `**` kept to one line, each part of a pattern takes up one step at most. */
  lemma {:induction false} OneLineSteps(pattern: string, s: string)
    requires Glob(pattern, s, true)
    ensures Steps(s) <= |pattern|
    decreases |pattern|
  {
    if pattern != "" {
      if pattern[0] == '*' {
        var double := |pattern| > 1 && pattern[1] == '*';
        var rest := if double then pattern[2..] else pattern[1..];
        var k := StarTakes(pattern, s);
        OneLineSteps(rest, s[k..]);
        StepsCut(s, k);
        NoSteps(s[..k]);
      } else {
        OneLineSteps(pattern[1..], s[1..]);
        StepsCut(s, 1);
      }
    }
  }

  /** What the star in front of a pattern takes. */
  lemma StarTakes(pattern: string, s: string) returns (k: nat)
    requires pattern != "" && pattern[0] == '*' && Glob(pattern, s, true)
    ensures k <= |s|
    ensures (forall i :: 0 <= i < k ==> s[i] != '\n') || (forall i :: 0 <= i < k ==> s[i] != '/')
    ensures Glob(if |pattern| > 1 && pattern[1] == '*' then pattern[2..] else pattern[1..], s[k..], true)
  {
    if |pattern| > 1 && pattern[1] == '*' {
      k :| 0 <= k <= |s| && (forall i :: 0 <= i < k ==> Inline(s[i])) && Glob(pattern[2..], s[k..], true);
      assert forall i :: 0 <= i < k ==> Inline(s[i]);
    } else {
      k :| 0 <= k <= |s| && (forall i :: 0 <= i < k ==> s[i] != '/') && Glob(pattern[1..], s[k..], true);
    }
  }

  ghost function Staircase(n: nat): (r: string) {
    if n == 0 then "" else "\n/" + Staircase(n - 1)
  }

  lemma {:induction false} StaircaseSteps(n: nat, more: string)
    ensures Steps(Staircase(n) + more) >= n
  {
    if n > 0 {
      var s := Staircase(n) + more;
      StaircaseSteps(n - 1, more);
      assert s[1..][1..] == Staircase(n - 1) + more && s[0] == '\n' && s[1] == '/';
    }
  }

  lemma {:induction false} StepsBehind(front: string, s: string)
    ensures Steps(front + s) >= Steps(s)
  {
    if front == "" {
      assert front + s == s;
    } else {
      StepsBehind(front[1..], s);
      assert (front + s)[1..] == front[1..] + s;
    }
  }

  /** A pattern with `**` matches texts of as many steps as one likes. */
  lemma {:induction false} Climbs(pattern: string, n: nat) returns (s: string)
    requires DoubleStar(pattern)
    ensures Glob(pattern, s, false) && Steps(s) >= n
    decreases |pattern|
  {
    if pattern[0] == '*' && pattern[1] == '*' {
      var rest := Plain(pattern[2..]);
      s := Staircase(n) + rest;
      StaircaseSteps(n, rest);
      assert s[|Staircase(n)|..] == rest;
    } else {
      var i: nat :| i + 1 < |pattern| && pattern[i] == '*' && pattern[i + 1] == '*';
      assert pattern[1..][i - 1] == '*' && pattern[1..][i - 1 + 1] == '*';
      var rest := Climbs(pattern[1..], n);
      if pattern[0] == '*' {
        s := rest;
        assert s[0..] == rest;
      } else {
        s := [pattern[0]] + rest;
        StepsBehind([pattern[0]], rest);
        assert s[1..] == rest;
      }
    }
  }

  /** Some text that a pattern matches: nothing for a star, itself for anything else. */
  lemma {:induction false} Plain(pattern: string) returns (s: string)
    ensures Glob(pattern, s, false)
    decreases |pattern|
  {
    if pattern == "" {
      s := "";
    } else if pattern[0] == '*' {
      s := Plain(if |pattern| > 1 && pattern[1] == '*' then pattern[2..] else pattern[1..]);
      assert s[0..] == s;
    } else {
      var rest := Plain(pattern[1..]);
      s := [pattern[0]] + rest;
      assert s[1..] == rest;
    }
  }

  lemma {:induction false} SingleStars(pattern: string, s: string)
    requires !DoubleStar(pattern)
    ensures Glob(pattern, s, true) <==> Glob(pattern, s, false)
    decreases |pattern|
  {
    if pattern != "" {
      assert !DoubleStar(pattern[1..]) by {
        forall i: nat | i + 1 < |pattern[1..]|
          ensures !(pattern[1..][i] == '*' && pattern[1..][i + 1] == '*')
        {
          assert !(pattern[i + 1] == '*' && pattern[i + 1 + 1] == '*');
        }
      }
      if pattern[0] == '*' {
        assert |pattern| > 1 ==> pattern[0 + 1] != '*';
        forall k | 0 <= k <= |s|
          ensures Glob(pattern[1..], s[k..], true) <==> Glob(pattern[1..], s[k..], false)
        {
          SingleStars(pattern[1..], s[k..]);
        }
      } else if s != "" {
        SingleStars(pattern[1..], s[1..]);
      }
    }
  }

  /** The compilation of a pattern is its glob on every text exactly when the pattern has no `**`. */
  lemma GlobsEverywhere(pattern: string)
    ensures (forall s :: PatternAccepts(pattern, s) <==> Glob(pattern, s, false)) <==> !DoubleStar(pattern)
  {
    if DoubleStar(pattern) {
      var s := Climbs(pattern, |pattern| + 1);
      GlobCompiles(pattern, s);
      if Glob(pattern, s, true) { OneLineSteps(pattern, s); }
      assert !PatternAccepts(pattern, s) && Glob(pattern, s, false);
    } else {
      forall s
        ensures PatternAccepts(pattern, s) <==> Glob(pattern, s, false)
      {
        GlobCompiles(pattern, s);
        SingleStars(pattern, s);
      }
    }
  }

  // ---------- containment ----------

  /** `entry.replace(/\/+$/, "")` */
  function StripSlashes(s: string): string {
    if s != "" && s[|s| - 1] == '/' then StripSlashes(s[..|s| - 1]) else s
  }

  predicate CoversPath(entry: string, target: string) {
    var normalized := StripSlashes(entry);
    target == normalized || normalized + "/" <= target
  }

  /** A path component: not empty, no slash. */
  ghost predicate Component(c: string) {
    c != "" && '/' !in c
  }

  ghost predicate Components(cs: seq<string>) {
    forall i :: 0 <= i < |cs| ==> Component(cs[i])
  }

  /** Each component behind a slash; nothing for the root. */
  function Body(cs: seq<string>): string {
    if cs == [] then "" else "/" + cs[0] + Body(cs[1..])
  }

  /** The normalised absolute path with these components. */
  function Render(cs: seq<string>): string {
    if cs == [] then "/" else Body(cs)
  }

  lemma {:induction false} BodyEnds(cs: seq<string>)
    requires Components(cs) && cs != []
    ensures Body(cs) != "" && Body(cs)[|Body(cs)| - 1] != '/'
  {
    var c, rest := cs[0], Body(cs[1..]);
    if |cs| > 1 {
      BodyEnds(cs[1..]);
      assert Body(cs)[|Body(cs)| - 1] == rest[|rest| - 1];
    } else {
      assert Body(cs) == "/" + c;
      assert c[|c| - 1] in c;
    }
  }

  function Slashes(n: nat): (r: string)
    ensures |r| == n
  {
    seq(n, _ => '/')
  }

  lemma {:induction false} StripGives(base: string, n: nat)
    requires base == "" || base[|base| - 1] != '/'
    ensures StripSlashes(base + Slashes(n)) == base
  {
    if n > 0 {
      var s := base + Slashes(n);
      var t := base + Slashes(n - 1);
      StripGives(base, n - 1);
      assert s[|s| - 1] == '/' && s[..|s| - 1] == t by { hide StripSlashes; }
    } else {
      assert base + Slashes(0) == base;
    }
  }

  lemma FirstSlash(c: string, x: string)
    requires Component(c) && x != "" && x[0] == '/'
    ensures (c + x)[|c|] == '/'
    ensures forall j :: 0 <= j < |c| ==> (c + x)[j] != '/'
  {
    forall j | 0 <= j < |c|
      ensures (c + x)[j] != '/'
    {
      assert c[j] in c;
    }
  }

  /** Text up to the first slash. */
  lemma SameComponent(c: string, x: string, d: string, y: string)
    requires Component(c) && Component(d) && c + x <= d + y && x != "" && x[0] == '/' && y != "" && y[0] == '/'
    ensures c == d && x <= y
  {
    var s, t := c + x, d + y;
    FirstSlash(c, x);
    FirstSlash(d, y);
    assert t[..|s|] == s;
    assert s[|c|] == t[|c|];
    assert |c| == |d|;
    assert c == s[..|c|] && d == t[..|d|];
    assert x == s[|c|..] && y == t[|d|..];
  }

  /** With a slash after each, one body opens another exactly when its components do. */
  lemma {:induction false} BodyPrefix(cs: seq<string>, ds: seq<string>)
    requires Components(cs) && Components(ds)
    ensures Body(cs) + "/" <= Body(ds) + "/" <==> cs <= ds
  {
    if cs == [] {
      if ds != [] { assert (Body(ds) + "/")[0] == '/'; }
    } else if ds == [] {
      assert |Body(cs)| >= 2;
    } else {
      var x, y := Body(cs[1..]) + "/", Body(ds[1..]) + "/";
      var s, t := Body(cs) + "/", Body(ds) + "/";
      assert s == "/" + (cs[0] + x) && t == "/" + (ds[0] + y);
      BodyPrefix(cs[1..], ds[1..]);
      OpensWithSlash(cs[1..]);
      OpensWithSlash(ds[1..]);
      if s <= t {
        assert s[1..] == cs[0] + x && t[1..] == ds[0] + y;
        SameComponent(cs[0], x, ds[0], y);
      }
      PrefixByHead(cs, ds);
      if cs[0] == ds[0] && x <= y {
        assert t[..|s|] == s by { assert y[..|x|] == x; }
      }
    }
  }

  lemma OpensWithSlash(cs: seq<string>)
    ensures (Body(cs) + "/")[0] == '/'
  {
  }

  lemma PrefixByHead(cs: seq<string>, ds: seq<string>)
    requires cs != [] && ds != []
    ensures cs <= ds <==> cs[0] == ds[0] && cs[1..] <= ds[1..]
  {
    assert cs == [cs[0]] + cs[1..] && ds == [ds[0]] + ds[1..];
  }

  /** An entry, with or without slashes at its end, covers a target exactly when its components open the
      target's. */
  lemma CoversByComponents(cs: seq<string>, n: nat, ds: seq<string>)
    requires Components(cs) && Components(ds)
    ensures CoversPath(Render(cs) + Slashes(n), Render(ds)) <==> cs <= ds
    ensures CoversPath(Body(cs), Render(ds)) <==> cs <= ds
  {
    var base := Body(cs);
    if cs == [] {
      assert Render(cs) + Slashes(n) == "" + Slashes(n + 1);
      StripGives("", n + 1);
      StripGives("", 0);
      assert "" + Slashes(0) == "";
    } else {
      BodyEnds(cs);
      StripGives(base, n);
      StripGives(base, 0);
      assert base + Slashes(0) == base;
    }
    assert StripSlashes(Render(cs) + Slashes(n)) == base && StripSlashes(base) == base;
    BodyPrefix(cs, ds);
    var t := Render(ds);
    if ds == [] {
      if cs == [] { assert base + "/" == t; } else { assert |base| >= 2; }
    } else {
      SlashSuffix(base, t);
      if cs == [] { OpensWithSlash(ds); }
    }
  }

  lemma SlashSuffix(base: string, t: string)
    ensures base + "/" <= t + "/" <==> t == base || base + "/" <= t
  {
    if base + "/" <= t + "/" {
      if |base| == |t| {
        assert base == (base + "/")[..|base|] == (t + "/")[..|t|] == t;
      } else {
        assert (t + "/")[..|base| + 1] == t[..|base| + 1];
      }
    }
    if base + "/" <= t { assert (t + "/")[..|base| + 1] == t[..|base| + 1]; }
  }

  // ---------- an allow entry ----------

  function StripGlobSuffix(p: string): string {
    if EndsWith(p, "/**/*") then p[..|p| - 5]
    else if EndsWith(p, "/**") then p[..|p| - 3]
    else if EndsWith(p, "/*") then p[..|p| - 2]
    else p
  }

  /** `expanded` is the entry with its home directory and relative part already resolved. */
  predicate EntryAllows(expanded: string, target: string) {
    if '*' in expanded then PatternAccepts(expanded, target) || CoversPath(StripGlobSuffix(expanded), target)
    else CoversPath(expanded, target)
  }

  /** Plain text in a pattern matches itself. */
  lemma {:induction false} LiteralOpens(text: string, more: string, s: string, oneLine: bool)
    requires '*' !in text
    ensures Glob(text + more, s, oneLine) <==> text <= s && Glob(more, s[|text|..], oneLine)
    decreases |text|
  {
    var p := text + more;
    if text == "" {
      assert p == more && s[0..] == s;
    } else {
      assert p[1..] == text[1..] + more && p[0] == text[0];
      if s != "" {
        LiteralOpens(text[1..], more, s[1..], oneLine);
        assert text <= s <==> text[0] == s[0] && text[1..] <= s[1..] by { PrefixOfText(text, s); }
        assert text <= s ==> s[1..][|text| - 1..] == s[|text|..];
      }
    }
  }

  lemma PrefixOfText(a: string, b: string)
    requires a != "" && b != ""
    ensures a <= b <==> a[0] == b[0] && a[1..] <= b[1..]
  {
    assert a == [a[0]] + a[1..] && b == [b[0]] + b[1..];
  }

  lemma {:induction false} BodyHasNoStar(cs: seq<string>)
    requires forall i :: 0 <= i < |cs| ==> '*' !in cs[i]
    ensures '*' !in Body(cs)
  {
    if cs != [] { BodyHasNoStar(cs[1..]); }
  }

  lemma EndsAt(s: string, end: string, k: nat)
    requires EndsWith(s, end) && 0 < k <= |end|
    ensures s[|s| - k] == end[|end| - k]
  {
    assert s[|s| - |end|..][|end| - k] == s[|s| - k];
  }

  lemma Appended(base: string, suffix: string)
    ensures EndsWith(base + suffix, suffix) && (base + suffix)[..|base|] == base
    ensures '*' in suffix ==> '*' in base + suffix
  {
  }

  /** The three suffixes exclude one another. */
  lemma WhichSuffix(p: string)
    ensures EndsWith(p, "/**/*") ==> !EndsWith(p, "/**")
    ensures EndsWith(p, "/*") ==> !EndsWith(p, "/**")
    ensures EndsWith(p, "/**/*") ==> p[|p| - 3] == '*'
  {
    hide EndsWith;
    if EndsWith(p, "/**/*") { EndsAt(p, "/**/*", 2); EndsAt(p, "/**/*", 3); }
    if EndsWith(p, "/**") { EndsAt(p, "/**", 2); }
    if EndsWith(p, "/*") { EndsAt(p, "/*", 2); }
  }

  lemma SuffixStripped(base: string, suffix: string)
    requires '*' !in base && suffix in {"/**/*", "/**", "/*"}
    ensures StripGlobSuffix(base + suffix) == base && '*' in base + suffix
  {
    var p := base + suffix;
    Appended(base, suffix);
    WhichSuffix(p);
    assert '*' in suffix by { assert suffix[1] == '*'; }
    assert suffix == "/*" && |p| >= 3 ==> p[|p| - 3] != '*' by {
      if suffix == "/*" && |p| >= 3 { assert base[|p| - 3] in base; }
    }
    assert EndsWith(p, "/**/*") ==> |p| >= 5;
    hide EndsWith;
  }

  /** An entry that names a directory and ends in a glob for its contents allows the directory, whatever is
      below it, and nothing else; line ends in the target make no difference. */
  lemma DirectoryEntry(cs: seq<string>, suffix: string, ds: seq<string>)
    requires Components(cs) && Components(ds) && suffix in {"/**/*", "/**", "/*"}
    requires forall i :: 0 <= i < |cs| ==> '*' !in cs[i]
    ensures EntryAllows(Body(cs) + suffix, Render(ds)) <==> cs <= ds
    ensures EntryAllows(Body(cs), Render(ds)) <==> cs <= ds
  {
    var base, target := Body(cs), Render(ds);
    BodyHasNoStar(cs);
    SuffixStripped(base, suffix);
    CoversByComponents(cs, 0, ds);
    PatternOpens(base, suffix, target);
    BodyUnslashed(cs);
    hide *;
    AllowedBy(base, suffix, target);
  }

  lemma PatternOpens(base: string, suffix: string, target: string)
    requires '*' !in base && suffix in {"/**/*", "/**", "/*"}
    ensures PatternAccepts(base + suffix, target) ==> base + "/" <= target
  {
    assert base + suffix == (base + "/") + suffix[1..];
    GlobCompiles(base + suffix, target);
    hide Glob, Compiled, ParseRegex, Matches;
    LiteralOpens(base + "/", suffix[1..], target, true);
  }

  lemma BodyUnslashed(cs: seq<string>)
    requires Components(cs)
    ensures StripSlashes(Body(cs)) == Body(cs)
  {
    if cs != [] { BodyEnds(cs); }
    StripGives(Body(cs), 0);
    assert Body(cs) + Slashes(0) == Body(cs);
  }

  lemma AllowedBy(base: string, suffix: string, target: string)
    requires StripGlobSuffix(base + suffix) == base && '*' in base + suffix && '*' !in base
    requires StripSlashes(base) == base
    requires PatternAccepts(base + suffix, target) ==> base + "/" <= target
    ensures EntryAllows(base + suffix, target) == CoversPath(base, target)
    ensures EntryAllows(base, target) == CoversPath(base, target)
  {
  }
}
