/** The marked skill block in an instructions file: finding complete blocks, installing, removing. */
module SkillBlocks {
  import opened Basics

  const START := "<!-- gmax:start -->"
  const END := "<!-- gmax:end -->"

  /** Text m stands at position p. */
  predicate At(s: string, p: nat, m: string) {
    p + |m| <= |s| && s[p..p + |m|] == m
  }

  // ---------- the pattern START (?:(?!START) any)*? END ----------

  /** Where the block whose start marker ends at q comes to its end: the first end marker, unless another
      start marker or the end of the text comes first. */
  function BlockEnd(s: string, q: nat): (r: Option<nat>)
    ensures r.Some? ==> q < r.value <= |s|
    decreases |s| - q
  {
    if At(s, q, END) then Some(q + |END|)
    else if q >= |s| || At(s, q, START) then None
    else BlockEnd(s, q + 1)
  }

  /** The end of the complete block that begins at p, if one does. */
  function BlockAt(s: string, p: nat): (r: Option<nat>)
    ensures r.Some? ==> p < r.value <= |s|
  {
    if At(s, p, START) then BlockEnd(s, p + |START|) else None
  }

  /** The first complete block at or after p, as (start, end). */
  function NextBlock(s: string, p: nat): (r: Option<(nat, nat)>)
    ensures r.Some? ==> p <= r.value.0 < r.value.1 <= |s|
    decreases |s| - p
  {
    if p >= |s| then None
    else match BlockAt(s, p)
      case Some(e) => Some((p, e))
      case None => NextBlock(s, p + 1)
  }

  /** What the pattern asks of a match from p to e: both markers, no start marker anywhere in between, and
      the first end marker there is. */
  ghost predicate IsBlock(s: string, p: nat, e: nat) {
    && At(s, p, START) && p + |START| + |END| <= e && At(s, e - |END|, END)
    && forall r: nat :: p + |START| <= r < e - |END| ==> !At(s, r, START) && !At(s, r, END)
  }

  lemma {:induction false} BlockEndMeans(s: string, q: nat, e: nat)
    ensures BlockEnd(s, q) == Some(e) <==>
      && q + |END| <= e && At(s, e - |END|, END)
      && forall r: nat :: q <= r < e - |END| ==> !At(s, r, START) && !At(s, r, END)
    decreases |s| - q
  {
    if q < |s| && !At(s, q, END) && !At(s, q, START) {
      BlockEndMeans(s, q + 1, e);
    }
  }

  lemma BlockInside(s: string, b: nat, e: nat)
    ensures IsBlock(s, b, e) ==> b < |s|
  {
  }

  /** The scan finds exactly the pattern's matches, leftmost first. */
  lemma {:induction false} NextBlockMeans(s: string, p: nat, b: nat, e: nat)
    requires p <= |s|
    ensures NextBlock(s, p) == Some((b, e)) <==> p <= b && IsBlock(s, b, e) && NoBlockIn(s, p, b)
    decreases |s| - p
  {
    forall t: nat
      ensures BlockAt(s, p) == Some(t) <==> IsBlock(s, p, t)
    {
      BlockAtMeans(s, p, t);
    }
    BlockInside(s, b, e);
    hide BlockAt, IsBlock, At;
    if p < |s| {
      NextBlockMeans(s, p + 1, b, e);
    }
  }

  ghost predicate NoBlockIn(s: string, p: nat, b: nat) {
    forall q: nat, t: nat :: p <= q < b ==> !IsBlock(s, q, t)
  }

  lemma BlockAtMeans(s: string, p: nat, e: nat)
    ensures BlockAt(s, p) == Some(e) <==> IsBlock(s, p, e)
  {
    BlockEndMeans(s, p + |START|, e);
  }

  /** The stretches of text around the complete blocks: one more than there are blocks. */
  function Gaps(s: string, p: nat): (r: seq<string>)
    requires p <= |s|
    ensures |r| >= 1
    decreases |s| - p
  {
    match NextBlock(s, p)
    case None => [s[p..]]
    case Some((b, e)) => [s[p..b]] + Gaps(s, e)
  }

  function Blocks(s: string, p: nat): (r: seq<string>)
    requires p <= |s|
    ensures |r| + 1 == |Gaps(s, p)|
    decreases |s| - p
  {
    match NextBlock(s, p)
    case None => []
    case Some((b, e)) => [s[b..e]] + Blocks(s, e)
  }

  /** Everything outside complete blocks. */
  function Outside(s: string): string {
    Flatten(Gaps(s, 0))
  }

  /** Gaps and blocks, taken alternately, are the text: nothing is in neither, nothing in both. */
  function Weave(gaps: seq<string>, blocks: seq<string>): string
    requires |gaps| == |blocks| + 1
  {
    if blocks == [] then gaps[0] else gaps[0] + blocks[0] + Weave(gaps[1..], blocks[1..])
  }

  lemma {:induction false} WeaveGives(s: string, p: nat)
    requires p <= |s|
    ensures Weave(Gaps(s, p), Blocks(s, p)) == s[p..]
    decreases |s| - p
  {
    hide NextBlock;
    match NextBlock(s, p)
    case None =>
    case Some((b, e)) =>
      WeaveGives(s, e);
      WeaveStep(s[p..b], s[b..e], Gaps(s, e), Blocks(s, e));
      assert s[p..] == s[p..b] + s[b..e] + s[e..];
  }

  lemma WeaveStep(gap: string, block: string, gaps: seq<string>, blocks: seq<string>)
    requires |gaps| == |blocks| + 1
    ensures Weave([gap] + gaps, [block] + blocks) == gap + block + Weave(gaps, blocks)
  {
    assert ([gap] + gaps)[1..] == gaps && ([block] + blocks)[1..] == blocks;
  }

  // ---------- install and uninstall ----------

  /** White space and line ends, as `String.prototype.trim` takes them. */
  predicate IsSpace(c: char) {
    || '\t' <= c <= '\r' || c == ' ' || c == '\U{00A0}' || c == '\U{1680}' || '\U{2000}' <= c <= '\U{200A}'
    || c == '\U{2028}' || c == '\U{2029}' || c == '\U{202F}' || c == '\U{205F}' || c == '\U{3000}' || c == '\U{FEFF}'
  }

  function TrimStart(s: string): string {
    if s != "" && IsSpace(s[0]) then TrimStart(s[1..]) else s
  }

  function TrimEnd(s: string): string {
    if s != "" && IsSpace(s[|s| - 1]) then TrimEnd(s[..|s| - 1]) else s
  }

  function Trim(s: string): string {
    TrimEnd(TrimStart(s))
  }

  /** The white space and line ends of ECMAScript. */
  ghost predicate Blank(c: char) {
    || c in {'\t', '\n', '\U{000B}', '\U{000C}', '\r', ' ', '\U{00A0}', '\U{1680}', '\U{2000}', '\U{2001}', '\U{2002}'}
    || c in {'\U{2003}', '\U{2004}', '\U{2005}', '\U{2006}', '\U{2007}', '\U{2008}', '\U{2009}', '\U{200A}'}
    || c in {'\U{2028}', '\U{2029}', '\U{202F}', '\U{205F}', '\U{3000}', '\U{FEFF}'}
  }

  ghost predicate AllBlank(s: string) {
    forall i :: 0 <= i < |s| ==> Blank(s[i])
  }

  ghost predicate Surrounded(s: string, front: string, middle: string, back: string) {
    s == front + middle + back && AllBlank(front) && AllBlank(back)
  }

  /** Trimming takes white space off both ends, all of it and nothing else. */
  lemma {:induction false} TrimMeans(s: string)
    ensures exists front, back :: Surrounded(s, front, Trim(s), back)
    ensures Trim(s) != "" ==> !Blank(Trim(s)[0]) && !Blank(Trim(s)[|Trim(s)| - 1])
  {
    var front := TrimStartMeans(s);
    var back := TrimEndMeans(TrimStart(s));
    assert s == front + Trim(s) + back;
    assert Surrounded(s, front, Trim(s), back);
    if Trim(s) != "" { assert Trim(s)[0] == TrimStart(s)[0]; }
  }

  lemma {:induction false} TrimStartMeans(s: string) returns (front: string)
    ensures s == front + TrimStart(s) && AllBlank(front)
    ensures TrimStart(s) != "" ==> !Blank(TrimStart(s)[0])
  {
    front := "";
    if s != "" && IsSpace(s[0]) {
      var rest := TrimStartMeans(s[1..]);
      front := [s[0]] + rest;
    }
  }

  lemma {:induction false} TrimEndMeans(s: string) returns (back: string)
    ensures s == TrimEnd(s) + back && AllBlank(back)
    ensures TrimEnd(s) != "" ==> !Blank(TrimEnd(s)[|TrimEnd(s)| - 1])
  {
    back := "";
    if s != "" && IsSpace(s[|s| - 1]) {
      var rest := TrimEndMeans(s[..|s| - 1]);
      back := rest + [s[|s| - 1]];
    }
  }

  function Block(skill: string): string {
    START + "\n" + Trim(skill) + "\n" + END
  }

  ghost predicate BlankLineEnds(s: string) {
    |s| >= 2 && s[|s| - 2] == '\n' && s[|s| - 1] == '\n'
  }

  /** The newlines put between existing text and an appended block. */
  function Separator(content: string): (r: string)
    ensures |r| <= 2
  {
    if EndsWith(content, "\n\n") then "" else if EndsWith(content, "\n") then "\n" else "\n\n"
  }

  /** It is as few newlines as end the text in a blank line. */
  lemma SeparatorMeans(content: string)
    ensures Separator(content) in {"", "\n", "\n\n"} && BlankLineEnds(content + Separator(content))
    ensures Separator(content) != "" ==> !BlankLineEnds(content + Separator(content)[1..])
  {
    var n := |content|;
    if EndsWith(content, "\n\n") {
      assert content[n - 2..] == [content[n - 2], content[n - 1]];
      assert content + "" == content;
    } else if EndsWith(content, "\n") {
      assert content[n - 1..] == [content[n - 1]];
      assert "\n"[1..] == "" && content + "" == content;
      if n >= 2 { assert content[n - 2..] == [content[n - 2], content[n - 1]]; }
    } else {
      assert "\n\n"[1..] == "\n";
      if n >= 1 { assert content[n - 1..] == [content[n - 1]]; }
    }
  }

  /** The file after an install. */
  ghost function Installed(block: string, content: string): string {
    var gaps := Gaps(content, 0);
    if |gaps| == 1 then content + Separator(content) + block
    else gaps[0] + block + Flatten(gaps[1..])
  }

  /** `content.replace(blocks, callback)`: the first complete block becomes the new one, later ones vanish. */
  method ReplaceBlocks(content: string, block: string) returns (updated: string, replaced: bool)
    ensures replaced <==> |Gaps(content, 0)| > 1
    ensures replaced ==> updated == Gaps(content, 0)[0] + block + Flatten(Gaps(content, 0)[1..])
    ensures !replaced ==> updated == content
  {
    updated, replaced := "", false;
    var p := 0;
    ghost var all := Gaps(content, 0);
    while true
      invariant p <= |content|
      invariant !replaced ==> p == 0 && updated == ""
      invariant replaced ==> |all| > 1 && updated + Flatten(Gaps(content, p)) == all[0] + block + Flatten(all[1..])
      decreases |content| - p
    {
      var found := NextBlock(content, p);
      if found == None {
        updated := updated + content[p..];
        break;
      }
      var (b, e) := found.value;
      assert Gaps(content, p)[1..] == Gaps(content, e);
      updated := updated + content[p..b] + (if replaced then "" else block);
      replaced := true;
      p := e;
    }
  }

  method WriteSkillToAgents(skill: string, existing: Option<string>) returns (written: string)
    ensures existing == None ==> written == Block(skill)
    ensures existing.Some? ==> written == Installed(Block(skill), existing.value)
  {
    var block := START + "\n" + Trim(skill) + "\n" + END;
    if existing == None {
      return block;
    }
    var content := existing.value;
    var updated, replaced := ReplaceBlocks(content, block);
    var separator := Separator(content);
    return if replaced then updated else content + separator + block;
  }

  /** Removes every complete block; a file without one is not rewritten. */
  method RemoveBlocks(content: string) returns (written: Option<string>)
    ensures written == if |Gaps(content, 0)| > 1 then Some(Outside(content)) else None
  {
    if NextBlock(content, 0) == None {
      return None;
    }
    var kept, p := "", 0;
    while true
      invariant p <= |content| && kept + Flatten(Gaps(content, p)) == Outside(content)
      decreases |content| - p
    {
      var found := NextBlock(content, p);
      if found == None {
        assert Gaps(content, p) == [content[p..]];
        FlattenSingle(content[p..]);
        return Some(kept + content[p..]);
      }
      assert Gaps(content, p)[1..] == Gaps(content, found.value.1);
      kept := kept + content[p..found.value.0];
      p := found.value.1;
    }
  }

  // ---------- markers ----------

  lemma MarkersPlain()
    ensures |START| == 19 && |END| == 17
    ensures forall i :: 0 <= i < |START| ==> START[i] != '\n'
    ensures forall i :: 0 <= i < |END| ==> END[i] != '\n'
    ensures forall i :: 0 < i < |START| ==> START[i] != '<'
    ensures forall i :: 0 < i < |END| ==> END[i] != '<'
    ensures START[0] == '<' && END[0] == '<' && START[10] == 's' && END[10] == 'e'
  {
  }

  lemma AtIndex(s: string, p: nat, m: string, i: nat)
    requires At(s, p, m) && i < |m|
    ensures s[p + i] == m[i]
  {
    assert s[p..p + |m|][i] == s[p + i];
  }

  /** Two different markers never stand at one place. */
  lemma MarkersDiffer(s: string, p: nat)
    ensures !(At(s, p, START) && At(s, p, END))
  {
    MarkersPlain();
    if At(s, p, START) && At(s, p, END) {
      AtIndex(s, p, START, 10);
      AtIndex(s, p, END, 10);
    }
  }

  /** Markers do not overlap: one that begins before n ends by n, if a marker begins at n. */
  lemma MarkersApart(s: string, p: nat, m: string, n: nat)
    requires m == START || m == END
    requires At(s, p, m) && p < n < |s| && s[n] == '<'
    ensures p + |m| <= n
  {
    MarkersPlain();
    if p + |m| > n { AtIndex(s, p, m, n - p); }
  }

  /** A marker does not run across a newline. */
  lemma MarkersOnOneLine(s: string, p: nat, m: string, n: nat)
    requires m == START || m == END
    requires At(s, p, m) && p <= n < |s| && s[n] == '\n'
    ensures p + |m| <= n
  {
    MarkersPlain();
    if p + |m| > n { AtIndex(s, p, m, n - p); }
  }

  lemma AtShift(s: string, e: nat, i: nat, m: string)
    requires e <= |s|
    ensures At(s, e + i, m) == At(s[e..], i, m)
  {
    if e + i + |m| <= |s| { assert s[e..][i..i + |m|] == s[e + i..e + i + |m|]; }
  }

  /** Scanning on from e is scanning the rest of the text on its own. */
  lemma {:induction false} BlockEndShift(s: string, e: nat, i: nat)
    requires e <= |s|
    ensures BlockEnd(s, e + i) == match BlockEnd(s[e..], i) { case None => None case Some(r) => Some(e + r) }
    decreases |s| - i
  {
    AtShift(s, e, i, END);
    AtShift(s, e, i, START);
    if e + i < |s| && !At(s, e + i, END) && !At(s, e + i, START) { BlockEndShift(s, e, i + 1); }
  }

  function Moved(r: Option<(nat, nat)>, e: nat): Option<(nat, nat)> {
    match r
    case None => None
    case Some((a, b)) => Some((e + a, e + b))
  }

  lemma BlockAtShift(s: string, e: nat, i: nat)
    requires e <= |s|
    ensures BlockAt(s, e + i).Some? <==> BlockAt(s[e..], i).Some?
    ensures BlockAt(s, e + i).Some? ==> BlockAt(s, e + i).value == e + BlockAt(s[e..], i).value
  {
    AtShift(s, e, i, START);
    BlockEndShift(s, e, i + |START|);
    assert e + (i + |START|) == e + i + |START|;
    hide BlockEnd, At;
  }

  lemma {:induction false} NextBlockShift(s: string, e: nat, i: nat)
    requires e <= |s|
    ensures NextBlock(s, e + i) == Moved(NextBlock(s[e..], i), e)
    decreases |s| - i
  {
    hide BlockAt;
    if e + i < |s| {
      BlockAtShift(s, e, i);
      if BlockAt(s, e + i) == None { NextBlockShift(s, e, i + 1); }
    }
  }

  lemma {:induction false} GapsShift(s: string, e: nat, i: nat)
    requires e + i <= |s|
    ensures Gaps(s, e + i) == Gaps(s[e..], i)
    decreases |s| - i
  {
    NextBlockShift(s, e, i);
    match NextBlock(s[e..], i)
    case None => assert s[e..][i..] == s[e + i..];
    case Some((a, b)) =>
      GapsShift(s, e, b);
      assert s[e..][i..a] == s[e + i..e + a];
  }

  // ---------- where the installed block ends up ----------

  /** No complete block begins before n, where a start marker stands. */
  ghost predicate ClearBefore(s: string, n: nat) {
    At(s, n, START) && forall p :: 0 <= p < n && At(s, p, START) ==> BlockEnd(s, p + |START|) == None
  }

  lemma {:induction false} ClearNext(s: string, n: nat, p: nat)
    requires ClearBefore(s, n) && p <= n && BlockEnd(s, n + |START|).Some?
    ensures NextBlock(s, p) == Some((n, BlockEnd(s, n + |START|).value))
    decreases n - p
  {
    MarkersPlain();
    if p < n { ClearNext(s, n, p + 1); }
  }

  lemma {:induction false} NextClear(s: string, p: nat)
    requires NextBlock(s, p).Some?
    ensures At(s, NextBlock(s, p).value.0, START)
    ensures BlockEnd(s, NextBlock(s, p).value.0 + |START|) == Some(NextBlock(s, p).value.1)
    ensures forall q :: p <= q < NextBlock(s, p).value.0 && At(s, q, START) ==> BlockEnd(s, q + |START|) == None
    decreases |s| - p
  {
    hide At, BlockEnd;
    if !(At(s, p, START) && BlockEnd(s, p + |START|).Some?) { NextClear(s, p + 1); }
  }

  lemma {:induction false} NoNext(s: string, p: nat)
    requires NextBlock(s, p) == None
    ensures forall q :: p <= q && At(s, q, START) ==> BlockEnd(s, q + |START|) == None
    decreases |s| - p
  {
    MarkersPlain();
    if p < |s| { NoNext(s, p + 1); }
  }

  /** Texts that agree up to and including a start marker at n scan alike from any q up to n. */
  lemma {:induction false} SameUpToStart(s: string, t: string, n: nat, q: nat)
    requires At(s, n, START) && At(t, n, START) && s[..n] == t[..n] && q <= n
    ensures BlockEnd(s, q) == BlockEnd(t, q)
    decreases n - q
  {
    MarkersPlain();
    MarkersDiffer(s, n);
    MarkersDiffer(t, n);
    if q < n {
      AgreeAt(s, t, n, q, START);
      AgreeAt(s, t, n, q, END);
      SameUpToStart(s, t, n, q + 1);
    }
  }

  lemma AgreeAt(s: string, t: string, n: nat, q: nat, m: string)
    requires m == START || m == END
    requires At(s, n, START) && At(t, n, START) && s[..n] == t[..n] && q < n
    ensures At(s, q, m) == At(t, q, m)
  {
    MarkersPlain();
    AtIndex(s, n, START, 0);
    AtIndex(t, n, START, 0);
    if At(s, q, m) {
      MarkersApart(s, q, m, n);
      assert t[q..q + |m|] == t[..n][q..q + |m|] == s[..n][q..q + |m|] == m;
    }
    if At(t, q, m) {
      MarkersApart(t, q, m, n);
      assert s[q..q + |m|] == s[..n][q..q + |m|] == t[..n][q..q + |m|] == m;
    }
  }

  /** The block written: both markers around a body that holds neither. */
  ghost predicate GoodBlock(block: string) {
    exists body :: block == START + "\n" + body + "\n" + END && MarkerFree(body)
  }

  ghost predicate MarkerFree(body: string) {
    forall p: nat :: !At(body, p, START) && !At(body, p, END)
  }

  /** Inside s, from position n on, stands the given text. */
  lemma AtParts(s: string, n: nat, a: string, b: string)
    requires At(s, n, a + b)
    ensures At(s, n, a) && At(s, n + |a|, b)
  {
    var whole := s[n..n + |a + b|];
    assert whole[..|a|] == a && whole[|a|..] == b;
    assert s[n..n + |a|] == whole[..|a|] && s[n + |a|..n + |a| + |b|] == whole[|a|..];
  }

  lemma AtInside(s: string, base: nat, body: string, i: nat, m: string)
    requires At(s, base, body) && At(s, base + i, m) && i + |m| <= |body|
    ensures At(body, i, m)
  {
    forall k | 0 <= k < |m|
      ensures body[i + k] == m[k]
    {
      AtIndex(s, base, body, i + k);
      AtIndex(s, base + i, m, k);
    }
    assert body[i..i + |m|] == m;
  }

  /** No marker begins between the two newlines around a marker-free body. */
  lemma BodyQuiet(s: string, n: nat, body: string, r: nat, m: string)
    requires m == START || m == END
    requires MarkerFree(body) && At(s, n, "\n" + body + "\n") && n <= r < n + |body| + 2
    ensures !At(s, r, m)
  {
    MarkersPlain();
    var line := "\n" + body + "\n";
    AtIndex(s, n, line, 0);
    AtIndex(s, n, line, |body| + 1);
    if At(s, r, m) {
      AtIndex(s, r, m, 0);
      assert n < r < n + |body| + 1;
      MarkersOnOneLine(s, r, m, n + |body| + 1);
      assert "\n" + (body + "\n") == line;
      AtParts(s, n, "\n", body + "\n");
      AtParts(s, n + 1, body, "\n");
      AtInside(s, n + 1, body, r - n - 1, m);
    }
  }

  lemma {:induction false} BodyScans(s: string, n: nat, body: string, r: nat)
    requires MarkerFree(body) && At(s, n, "\n" + body + "\n") && At(s, n + |body| + 2, END)
    requires n <= r <= n + |body| + 2
    ensures BlockEnd(s, r) == Some(n + |body| + 2 + |END|)
    decreases n + |body| + 2 - r
  {
    if r < n + |body| + 2 {
      BodyQuiet(s, n, body, r, START);
      BodyQuiet(s, n, body, r, END);
      BodyScans(s, n, body, r + 1);
    }
  }

  /** A good block standing at n is complete and ends where its text ends. */
  lemma BlockStands(s: string, n: nat, block: string)
    requires GoodBlock(block) && At(s, n, block)
    ensures At(s, n, START) && BlockEnd(s, n + |START|) == Some(n + |block|)
  {
    var body :| block == START + "\n" + body + "\n" + END && MarkerFree(body);
    var line := "\n" + body + "\n";
    assert block == START + (line + END);
    hide At, BlockEnd, MarkerFree;
    AtParts(s, n, START, line + END);
    AtParts(s, n + |START|, line, END);
    BodyScans(s, n + |START|, body, n + |START|);
  }

  /** A text of the form head + block + tail, with no complete block begun in the head. */
  lemma InstalledGaps(head: string, block: string, tail: string)
    requires GoodBlock(block) && ClearBefore(head + block + tail, |head|)
    ensures Gaps(head + block + tail, 0) == [head] + Gaps(tail, 0)
  {
    var s, n := head + block + tail, |head|;
    assert s[n..n + |block|] == block;
    BlockStands(s, n, block);
    ClearNext(s, n, 0);
    assert s[..n] == head && s[n + |block|..] == tail;
    GapsStep(s);
  }

  lemma GapsStep(s: string)
    requires NextBlock(s, 0).Some?
    ensures var (b, e) := NextBlock(s, 0).value; Gaps(s, 0) == [s[..b]] + Gaps(s[e..], 0)
  {
    hide NextBlock;
    var (b, e) := NextBlock(s, 0).value;
    assert s[0..b] == s[..b];
    GapsShift(s, e, 0);
  }

  /** Replacing: the head of a file with a block stays clear in front of the new block. */
  lemma ClearAfterReplace(content: string, block: string, tail: string)
    requires GoodBlock(block) && NextBlock(content, 0).Some?
    ensures ClearBefore(content[..NextBlock(content, 0).value.0] + block + tail, NextBlock(content, 0).value.0)
  {
    var n := NextBlock(content, 0).value.0;
    var head := content[..n];
    var s := head + block + tail;
    NextClear(content, 0);
    assert s[n..n + |block|] == block && s[..n] == head;
    BlockStands(s, n, block);
    MarkersPlain();
    forall p | 0 <= p < n && At(s, p, START)
      ensures BlockEnd(s, p + |START|) == None
    {
      AgreeAt(s, content, n, p, START);
      AtIndex(s, n, START, 0);
      MarkersApart(s, p, START, n);
      SameUpToStart(s, content, n, p + |START|);
    }
  }

  // ---------- appending ----------

  /** With a newline at the end of c, nothing in c + x begins a marker in c that c alone does not. */
  lemma AppendAt(c: string, x: string, q: nat, m: string)
    requires m == START || m == END
    requires c != "" && c[|c| - 1] == '\n' && q < |c|
    ensures At(c + x, q, m) == At(c, q, m)
  {
    var s := c + x;
    if At(s, q, m) {
      MarkersOnOneLine(s, q, m, |c| - 1);
      assert c[q..q + |m|] == s[q..q + |m|];
    }
    if At(c, q, m) { assert c[q..q + |m|] == s[q..q + |m|]; }
  }

  lemma {:induction false} AppendScans(c: string, x: string, q: nat)
    requires c != "" && c[|c| - 1] == '\n' && q <= |c| && At(c + x, |c|, START)
    requires BlockEnd(c, q) == None
    ensures BlockEnd(c + x, q) == None
    decreases |c| - q
  {
    MarkersDiffer(c + x, |c|);
    if q < |c| {
      AppendAt(c, x, q, START);
      AppendAt(c, x, q, END);
      if !At(c, q, START) { AppendScans(c, x, q + 1); }
    }
  }

  /** Newlines after a text complete no block in it. */
  lemma {:induction false} NewlineScans(c: string, q: nat)
    requires q <= |c| && BlockEnd(c, q) == None
    ensures BlockEnd(c + "\n", q) == None
    decreases |c| - q
  {
    NewlineAt(c, q, START);
    NewlineAt(c, q, END);
    if q < |c| && !At(c, q, START) {
      NewlineScans(c, q + 1);
    } else if q == |c| {
      MarkersPlain();
      assert BlockEnd(c + "\n", q + 1) == None;
    }
  }

  lemma NewlineAt(c: string, q: nat, m: string)
    requires m == START || m == END
    ensures At(c + "\n", q, m) == At(c, q, m)
  {
    var s := c + "\n";
    MarkersPlain();
    if At(s, q, m) {
      if q <= |c| { MarkersOnOneLine(s, q, m, |c|); }
      assert c[q..q + |m|] == s[q..q + |m|];
    }
    if At(c, q, m) { assert c[q..q + |m|] == s[q..q + |m|]; }
  }

  ghost predicate BlockFree(s: string) {
    forall p :: 0 <= p && At(s, p, START) ==> BlockEnd(s, p + |START|) == None
  }

  lemma NewlineKeepsFree(c: string)
    requires BlockFree(c)
    ensures BlockFree(c + "\n")
  {
    forall p | 0 <= p && At(c + "\n", p, START)
      ensures BlockEnd(c + "\n", p + |START|) == None
    {
      NewlineAt(c, p, START);
      NewlineScans(c, p + |START|);
    }
  }

  lemma SeparatedEndsLine(c: string)
    requires BlockFree(c)
    ensures BlockFree(c + Separator(c))
    ensures c + Separator(c) != "" && (c + Separator(c))[|c + Separator(c)| - 1] == '\n'
  {
    NewlineKeepsFree(c);
    NewlineKeepsFree(c + "\n");
    assert (c + "\n") + "\n" == c + "\n\n";
    assert c + "" == c;
  }

  lemma ClearAfterAppend(c: string, block: string)
    requires GoodBlock(block) && BlockFree(c) && c != "" && c[|c| - 1] == '\n'
    ensures ClearBefore(c + block + "", |c|)
  {
    var s := c + block + "";
    assert s == c + block && s[|c|..|c| + |block|] == block;
    BlockStands(s, |c|, block);
    MarkersPlain();
    AtIndex(s, |c|, START, 0);
    forall p | 0 <= p < |c| && At(s, p, START)
      ensures BlockEnd(s, p + |START|) == None
    {
      AppendAt(c, block, p, START);
      MarkersApart(s, p, START, |c|);
      AppendScans(c, block, p + |START|);
    }
  }

  // ---------- install is idempotent, uninstall is its inverse ----------

  /** A text without a complete block is one gap. */
  lemma FreeGaps(s: string)
    ensures NextBlock(s, 0) == None <==> Gaps(s, 0) == [s]
    ensures NextBlock(s, 0) == None <==> |Gaps(s, 0)| == 1
  {
    assert s[0..] == s;
  }

  lemma OutsideShorter(parts: seq<string>, p: nat, s: string)
    requires p <= |s| && parts == Gaps(s, p)
    ensures |Flatten(parts)| <= |s| - p
    ensures |parts| > 1 ==> |Flatten(parts)| < |s| - p
    decreases |s| - p
  {
    match NextBlock(s, p)
    case None => FlattenSingle(s[p..]);
    case Some((b, e)) =>
      OutsideShorter(Gaps(s, e), e, s);
      assert parts[1..] == Gaps(s, e);
  }

  /** What follows the first block once every later block is gone. */
  ghost function TailOf(content: string): string {
    Flatten(Gaps(content, 0)[1..])
  }

  /** Installing into a file that has a block: everything outside complete blocks stays, in order; the
      result's own blocks are the new one and whatever the joined tail may complete. */
  lemma InstallReplaces(block: string, content: string)
    requires GoodBlock(block) && |Gaps(content, 0)| > 1
    ensures var head := Gaps(content, 0)[0];
      Installed(block, content) == head + block + TailOf(content) &&
      Gaps(Installed(block, content), 0) == [head] + Gaps(TailOf(content), 0)
  {
    FreeGaps(content);
    assert content[0..NextBlock(content, 0).value.0] == content[..NextBlock(content, 0).value.0];
    ClearAfterReplace(content, block, TailOf(content));
    InstalledGaps(Gaps(content, 0)[0], block, TailOf(content));
  }

  /** Installing into a file without a block appends one, and that is the only one. */
  lemma InstallAppends(block: string, content: string)
    requires GoodBlock(block) && |Gaps(content, 0)| == 1
    ensures Gaps(Installed(block, content), 0) == [content + Separator(content), ""]
  {
    var head := content + Separator(content);
    FreeGaps(content);
    NoNext(content, 0);
    SeparatedEndsLine(content);
    ClearAfterAppend(head, block);
    InstalledGaps(head, block, "");
    assert head + block + "" == Installed(block, content);
    FreeGaps("");
  }

  /** A second install changes nothing exactly when the tail, once its blocks are removed and the pieces
      joined, does not itself spell a complete block. Files with at most one block always qualify. */
  lemma InstallIdempotent(block: string, content: string)
    requires GoodBlock(block)
    ensures Installed(block, Installed(block, content)) == Installed(block, content) <==>
      (|Gaps(content, 0)| > 1 ==> NextBlock(TailOf(content), 0) == None)
  {
    var once := Installed(block, content);
    if |Gaps(content, 0)| == 1 {
      InstallAppends(block, content);
      var head := content + Separator(content);
      assert Gaps(once, 0)[1..] == [""];
      FlattenSingle("");
      assert Installed(block, once) == head + block + "" == once;
    } else {
      InstallReplaces(block, content);
      var head, tail := Gaps(content, 0)[0], TailOf(content);
      assert Gaps(once, 0)[1..] == Gaps(tail, 0);
      assert Installed(block, once) == head + block + Flatten(Gaps(tail, 0));
      FreeGaps(tail);
      OutsideShorter(Gaps(tail, 0), 0, tail);
      if NextBlock(tail, 0) == None { FlattenSingle(tail); }
    }
  }

  lemma SingleTail(content: string) returns (tail: string)
    requires |Gaps(content, 0)| == 2
    ensures Gaps(content, 0) == [Gaps(content, 0)[0], tail] && TailOf(content) == tail && NextBlock(tail, 0) == None
  {
    var e := NextBlock(content, 0).value.1;
    tail := content[e..];
    assert Gaps(content, 0)[1..] == Gaps(content, e);
    GapsShift(content, e, 0);
    FreeGaps(tail);
    FlattenSingle(tail);
  }

  /** With one complete block, the tail is a stretch of the file itself and completes nothing. */
  lemma OneBlockIdempotent(block: string, content: string)
    requires GoodBlock(block) && |Gaps(content, 0)| <= 2
    ensures Installed(block, Installed(block, content)) == Installed(block, content)
    ensures Outside(Installed(block, content)) ==
      if |Gaps(content, 0)| == 2 then Outside(content) else content + Separator(content)
  {
    InstallIdempotent(block, content);
    if |Gaps(content, 0)| == 2 {
      var tail := SingleTail(content);
      InstallReplaces(block, content);
      FreeGaps(tail);
      assert Gaps(Installed(block, content), 0) == Gaps(content, 0);
    } else {
      InstallAppends(block, content);
      var head := content + Separator(content);
      FlattenSingle("");
      assert [head, ""][1..] == [""];
    }
  }

  /** Text outside complete blocks survives an install exactly when the joined tail completes no block; a
      file without a block only gains the separator. */
  lemma InstallPreserves(block: string, content: string)
    requires GoodBlock(block)
    ensures |Gaps(content, 0)| > 1 ==>
      (Outside(Installed(block, content)) == Outside(content) <==> NextBlock(TailOf(content), 0) == None)
    ensures |Gaps(content, 0)| == 1 ==> Outside(Installed(block, content)) == content + Separator(content)
  {
    if |Gaps(content, 0)| > 1 {
      InstallReplaces(block, content);
      var head, tail := Gaps(content, 0)[0], TailOf(content);
      FreeGaps(tail);
      OutsideShorter(Gaps(tail, 0), 0, tail);
      assert ([head] + Gaps(tail, 0))[1..] == Gaps(tail, 0);
      assert Outside(Installed(block, content)) == head + Flatten(Gaps(tail, 0));
      assert Outside(content) == head + tail;
      if NextBlock(tail, 0) == None { FlattenSingle(tail); }
    } else {
      OneBlockIdempotent(block, content);
    }
  }

  /** Uninstalling after a first install gives back the file plus at most two newlines. */
  lemma UninstallUndoesFirstInstall(block: string, content: string)
    requires GoodBlock(block) && NextBlock(content, 0) == None
    ensures |Gaps(Installed(block, content), 0)| > 1
    ensures Outside(Installed(block, content)) == content + Separator(content)
    ensures Separator(content) in {"", "\n", "\n\n"}
  {
    FreeGaps(content);
    InstallAppends(block, content);
    InstallPreserves(block, content);
  }

  /** The block the installer writes qualifies exactly when the trimmed skill text holds no marker. */
  lemma WrittenBlockGood(skill: string)
    ensures GoodBlock(Block(skill)) <==> MarkerFree(Trim(skill))
  {
    var block, text := Block(skill), Trim(skill);
    assert block == START + "\n" + text + "\n" + END;
    if GoodBlock(block) {
      var body :| block == START + "\n" + body + "\n" + END && MarkerFree(body);
      var n := |START| + 1;
      assert |body| == |text|;
      assert body == block[n..n + |body|] && text == block[n..n + |text|];
    }
  }

  /** Two blocks whose removal joins marker halves: a second install removes a block the first one made. */
  lemma JoinedHalvesBreakIdempotence(block: string, left: string, right: string)
    requires GoodBlock(block) && left + right == START + "x" + END && 0 < |left| < |START|
    ensures var content := block + left + block + right;
      Installed(block, Installed(block, content)) != Installed(block, content)
  {
    var content := block + left + block + right;
    var rest := left + block + right;
    RightQuiet(left, right);
    assert content == "" + block + rest;
    ClearAtFront(block, rest);
    InstalledGaps("", block, rest);
    ClearAfterLeft(block, left, right);
    InstalledGaps(left, block, right);
    FreeGaps(right);
    hide NextBlock, Gaps, ClearBefore;
    assert Gaps(content, 0) == ["", left, right];
    assert Gaps(content, 0)[1..] == [left, right] && [left, right][1..] == [right];
    FlattenSingle(right);
    assert TailOf(content) == START + "x" + END;
    SmallBlock();
    InstallIdempotent(block, content);
  }

  lemma ClearAtFront(block: string, rest: string)
    requires GoodBlock(block)
    ensures ClearBefore("" + block + rest, 0)
  {
    var s := "" + block + rest;
    assert s[0..|block|] == block;
    BlockStands(s, 0, block);
  }

  lemma LeftQuiet(block: string, left: string, right: string)
    requires GoodBlock(block) && left + right == START + "x" + END && 0 < |left| < |START|
    ensures forall p :: 0 <= p < |left| ==> !At(left + block + right, p, START)
  {
    var s, n := left + block + right, |left|;
    assert s[n..n + |block|] == block;
    BlockStands(s, n, block);
    MarkersPlain();
    AtIndex(s, n, START, 0);
    forall p | 0 <= p < n
      ensures !At(s, p, START)
    {
      if At(s, p, START) { MarkersApart(s, p, START, n); }
    }
  }

  lemma ClearAfterLeft(block: string, left: string, right: string)
    requires GoodBlock(block) && left + right == START + "x" + END && 0 < |left| < |START|
    ensures ClearBefore(left + block + right, |left|)
  {
    var s, n := left + block + right, |left|;
    assert s[n..n + |block|] == block;
    BlockStands(s, n, block);
    LeftQuiet(block, left, right);
  }

  lemma RightQuiet(left: string, right: string)
    requires left + right == START + "x" + END && 0 < |left| < |START|
    ensures NextBlock(right, 0) == None
  {
    MarkersPlain();
    var all := START + "x" + END;
    forall k | 0 <= k < |right|
      ensures right[k] == '<' ==> k == |START| + 1 - |left|
    {
      assert right[k] == all[|left| + k];
      AngleInSmall(|left| + k);
    }
    forall p | 0 <= p
      ensures !At(right, p, START)
    {
      OpensAngle(right, p, START);
    }
    QuietHasNone(right, 0);
  }

  lemma OpensAngle(s: string, p: nat, m: string)
    requires m == START || m == END
    ensures At(s, p, m) ==> p + |m| <= |s| && |m| > 0 && s[p] == '<'
  {
    MarkersPlain();
    if At(s, p, m) { AtIndex(s, p, m, 0); }
  }

  lemma AngleInSmall(i: nat)
    requires 0 < i < |START + "x" + END|
    ensures (START + "x" + END)[i] == '<' ==> i == |START| + 1
  {
    MarkersPlain();
    var all := START + "x" + END;
    if i < |START| {
      assert all[i] == START[i];
    } else if i > |START| {
      assert all[i] == END[i - |START| - 1];
    }
  }

  lemma {:induction false} QuietHasNone(s: string, p: nat)
    requires forall q :: 0 <= q ==> !At(s, q, START)
    ensures NextBlock(s, p) == None
    decreases |s| - p
  {
    if p < |s| { QuietHasNone(s, p + 1); }
  }

  lemma SmallBlock()
    ensures NextBlock(START + "x" + END, 0).Some?
  {
    var s := START + "x" + END;
    MarkersPlain();
    assert s[..|START|] == START && s[|START| + 1..|START| + 1 + |END|] == END;
    OpensAngle(s, |START|, START);
    OpensAngle(s, |START|, END);
    AngleInSmall(|START|);
    assert BlockEnd(s, |START| + 1).Some?;
    assert BlockEnd(s, |START|).Some?;
  }
}
