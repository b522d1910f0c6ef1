/** Packing candidates into a token budget, and the report that must cost no more than its budget. */
module ContextBudget {
  import opened Basics
  import opened Sorting

  // ---------- sorting by a comparator ----------

  /** A strict total order on the indices below `n`. */
  ghost predicate StrictOrder(before: (nat, nat) -> bool, n: nat) {
    && (forall i, j :: 0 <= i < n && 0 <= j < n && i != j ==> (before(i, j) <==> !before(j, i)))
    && (forall i :: 0 <= i < n ==> !before(i, i))
    && (forall i, j, k :: 0 <= i < n && 0 <= j < n && 0 <= k < n && before(i, j) && before(j, k) ==> before(i, k))
  }

  function Weakly(before: (nat, nat) -> bool): (nat, nat) -> bool {
    (i: nat, j: nat) => i == j || before(i, j)
  }

  /** What sorting by a strict total order gives. */
  function SortBy(before: (nat, nat) -> bool, s: seq<nat>): seq<nat> {
    Sort(Weakly(before), s)
  }

  ghost predicate InOrder(s: seq<nat>, before: (nat, nat) -> bool) {
    forall a, b :: 0 <= a < b < |s| ==> before(s[a], s[b])
  }

  ghost predicate Distinct(s: seq<nat>) {
    forall a, b :: 0 <= a < b < |s| ==> s[a] != s[b]
  }

  ghost predicate Below(s: seq<nat>, n: nat) {
    forall a :: 0 <= a < |s| ==> s[a] < n
  }

  lemma SortByOrders(before: (nat, nat) -> bool, s: seq<nat>, n: nat)
    requires StrictOrder(before, n) && Below(s, n) && Distinct(s)
    ensures var r := SortBy(before, s);
      && InOrder(r, before) && |r| == |s| && Below(r, n)
      && (forall y :: y in r <==> y in s)
  {
    var r := SortBy(before, s);
    SortKeeps(Weakly(before), s);
    SortSorts(Weakly(before), s);
    assert KeysDistinct<nat, int>((i: nat) => i, s);
    KeysPermuted<nat, int>((i: nat) => i, s, r);
    assert Distinct(r);
    forall a | 0 <= a < |r|
      ensures r[a] < n
    {
      assert r[a] in r;
      assert r[a] in s;
    }
  }

  function Upto(n: nat): (r: seq<nat>)
    ensures |r| == n && forall i :: 0 <= i < n ==> r[i] == i
  {
    seq(n, i => i)
  }

  // ---------- packing ----------

  /** `tokens` is None for an infinite cost. */
  datatype Candidate = Candidate(tokens: Option<int>, score: real)

  function Cost(c: Candidate): (r: Option<nat>)
    ensures r.None? <==> c.tokens.None?
    ensures r.Some? ==> r.value >= c.tokens.value && (r.value == 0 || r.value == c.tokens.value)
  {
    if c.tokens.None? then None else Some(if c.tokens.value < 0 then 0 else c.tokens.value)
  }

  /** The score in whole steps of `eps`, rounded to the nearest and halves upwards. */
  function Bucket(c: Candidate, eps: real): (r: int)
    requires eps > 0.0
    ensures r as real - 0.5 <= c.score / eps < r as real + 0.5
  {
    (c.score / eps + 0.5).Floor
  }

  predicate Cheaper(a: Option<nat>, b: Option<nat>) {
    a.Some? && (b.None? || a.value < b.value)
  }

  /** The comparator: the better bucket, then the smaller cost, then the earlier place. */
  function Before(cands: seq<Candidate>, eps: real): (nat, nat) -> bool
    requires eps > 0.0
  {
    (i: nat, j: nat) =>
      if i >= |cands| || j >= |cands| then false
      else if Bucket(cands[i], eps) != Bucket(cands[j], eps) then Bucket(cands[i], eps) > Bucket(cands[j], eps)
      else if Cost(cands[i]) != Cost(cands[j]) then Cheaper(Cost(cands[i]), Cost(cands[j]))
      else i < j
  }

  lemma BeforeOrders(cands: seq<Candidate>, eps: real)
    requires eps > 0.0
    ensures StrictOrder(Before(cands, eps), |cands|)
  {
    hide Bucket, Cost;
  }

  ghost predicate Smaller(a: Option<int>, b: Option<int>) {
    a.Some? && (b.None? || (b.value > 0 && a.value < b.value))
  }

  /** A score better by `eps` comes first; among equal scores the smaller cost does, and then the place. */
  lemma BeforeMeans(cands: seq<Candidate>, eps: real, i: nat, j: nat)
    requires eps > 0.0 && i < |cands| && j < |cands|
    ensures cands[i].score >= cands[j].score + eps ==> Before(cands, eps)(i, j)
    ensures cands[i].score == cands[j].score && Smaller(cands[i].tokens, cands[j].tokens) ==>
      Before(cands, eps)(i, j)
    ensures cands[i].score == cands[j].score && cands[i].tokens == cands[j].tokens ==>
      (Before(cands, eps)(i, j) <==> i < j)
  {
    var a, b := cands[i].score, cands[j].score;
    if a >= b + eps { StepApart(a, b, eps); }
  }

  lemma NotPositive(d: real, eps: real)
    requires eps > 0.0 && d * eps <= 0.0
    ensures d <= 0.0
  {
  }

  lemma StepApart(a: real, b: real, eps: real)
    requires eps > 0.0 && a >= b + eps
    ensures a / eps >= b / eps + 1.0
  {
    var x, y := a / eps, b / eps;
    assert a == x * eps && b == y * eps;
    var d := y + 1.0 - x;
    assert d * eps == y * eps + eps - x * eps;
    assert d * eps <= 0.0;
    NotPositive(d, eps);
  }

  /** The total cost of the chosen candidates among the first `n`. */
  ghost function Weight(cands: seq<Candidate>, chosen: set<nat>, n: nat): nat
    requires n <= |cands|
  {
    if n == 0 then 0
    else
      var last := Cost(cands[n - 1]);
      Weight(cands, chosen, n - 1) + (if n - 1 in chosen && last.Some? then last.value else 0)
  }

  lemma {:induction false} WeightAdds(cands: seq<Candidate>, chosen: set<nat>, x: nat, n: nat)
    requires n <= |cands| && x < |cands| && x !in chosen && Cost(cands[x]).Some?
    ensures Weight(cands, chosen + {x}, n) == Weight(cands, chosen, n) + if x < n then Cost(cands[x]).value else 0
  {
    if n > 0 { WeightAdds(cands, chosen, x, n - 1); }
  }

  lemma {:induction false} WeightGrows(cands: seq<Candidate>, few: set<nat>, many: set<nat>, n: nat)
    requires n <= |cands| && few <= many
    ensures Weight(cands, few, n) <= Weight(cands, many, n)
  {
    if n > 0 { WeightGrows(cands, few, many, n - 1); }
  }

  ghost function Ahead(cands: seq<Candidate>, eps: real, chosen: set<nat>, i: nat): set<nat>
    requires eps > 0.0
  {
    set j | j in chosen && Before(cands, eps)(j, i)
  }

  ghost predicate Fits(cands: seq<Candidate>, taken: set<nat>, i: nat, budget: int)
    requires i < |cands|
  {
    Cost(cands[i]).Some? && Weight(cands, taken, |cands|) + Cost(cands[i]).value <= budget
  }

  /** The greedy law: a candidate is chosen exactly when it fits on top of the chosen ones ahead of it. */
  ghost predicate Greedy(cands: seq<Candidate>, eps: real, budget: int, chosen: set<nat>)
    requires eps > 0.0
  {
    && (forall i :: i in chosen ==> i < |cands|)
    && (forall i :: 0 <= i < |cands| ==> (i in chosen <==> Fits(cands, Ahead(cands, eps, chosen, i), i, budget)))
  }

  ghost predicate Best(cands: seq<Candidate>, b: nat) {
    && b < |cands|
    && (forall i :: 0 <= i < |cands| ==> cands[i].score <= cands[b].score)
    && (forall i :: 0 <= i < b ==> cands[i].score < cands[b].score)
  }

  ghost predicate Has(order: seq<nat>, i: nat) {
    exists a: nat :: a < |order| && order[a] == i
  }

  ghost predicate Covers(order: seq<nat>, n: nat) {
    forall i: nat :: i < n ==> Has(order, i)
  }

  ghost predicate Ascending(s: seq<nat>) {
    forall a, b :: 0 <= a < b < |s| ==> s[a] < s[b]
  }

  ghost function Members(s: seq<nat>): set<nat> {
    set x | x in s
  }

  /** What the fill has decided after the first `k` of the order. */
  ghost predicate Decided(cands: seq<Candidate>, eps: real, budget: int, order: seq<nat>, k: nat, chosen: set<nat>)
    requires eps > 0.0 && k <= |order|
  {
    && chosen <= Members(order[..k])
    && (forall i :: i in chosen ==> i < |cands|)
    && (forall a :: 0 <= a < k && order[a] < |cands| ==>
          (order[a] in chosen <==> Fits(cands, Ahead(cands, eps, chosen, order[a]), order[a], budget)))
  }

  lemma DecidedStep(cands: seq<Candidate>, eps: real, budget: int, order: seq<nat>, k: nat, chosen: set<nat>)
    requires eps > 0.0 && k < |order| && Below(order, |cands|)
    requires StrictOrder(Before(cands, eps), |cands|) && InOrder(order, Before(cands, eps))
    requires Decided(cands, eps, budget, order, k, chosen)
    ensures order[k] !in chosen
    ensures var next := if Fits(cands, chosen, order[k], budget) then chosen + {order[k]} else chosen;
      Decided(cands, eps, budget, order, k + 1, next)
  {
    var before := Before(cands, eps);
    var x := order[k];
    var next := if Fits(cands, chosen, x, budget) then chosen + {x} else chosen;
    assert order[..k + 1] == order[..k] + [x];
    forall j | j in chosen
      ensures before(j, x)
    {
      var a :| 0 <= a < |order[..k]| && order[..k][a] == j;
      assert before(order[a], order[k]);
    }
    assert !before(x, x);
    assert Ahead(cands, eps, next, x) == chosen;
    forall a | 0 <= a < k
      ensures Ahead(cands, eps, next, order[a]) == Ahead(cands, eps, chosen, order[a]) && order[a] != x
    {
      assert before(order[a], order[k]);
      assert !before(x, order[a]);
    }
    hide Fits, Ahead, Before, StrictOrder, InOrder;
  }

  /** Once the whole order is decided the greedy law holds. */
  lemma DecidedAll(cands: seq<Candidate>, eps: real, budget: int, order: seq<nat>, chosen: set<nat>)
    requires eps > 0.0 && Decided(cands, eps, budget, order, |order|, chosen)
    requires Covers(order, |cands|)
    ensures Greedy(cands, eps, budget, chosen)
  {
    hide Fits, Ahead;
    forall i: nat | i < |cands|
      ensures i in chosen <==> Fits(cands, Ahead(cands, eps, chosen, i), i, budget)
    {
      assert Has(order, i);
      var a: nat :| a < |order| && order[a] == i;
    }
  }

  /** The law leaves one choice only: it settles every candidate in turn. */
  lemma GreedyUnique(cands: seq<Candidate>, eps: real, budget: int, one: set<nat>, two: set<nat>)
    requires eps > 0.0 && Greedy(cands, eps, budget, one) && Greedy(cands, eps, budget, two)
    ensures one == two
  {
    var order := SortBy(Before(cands, eps), Upto(|cands|));
    OrderReady(cands, eps);
    forall i: nat | i < |cands|
      ensures i in one <==> i in two
    {
      assert Has(order, i);
      var a: nat :| a < |order| && order[a] == i;
      GreedySame(cands, eps, budget, one, two, order, a);
    }
  }

  lemma ComesFirst(order: seq<nat>, before: (nat, nat) -> bool, n: nat, a: nat, b: nat)
    requires StrictOrder(before, n) && Below(order, n) && InOrder(order, before)
    requires a < |order| && b < |order| && before(order[b], order[a])
    ensures b < a
  {
  }

  lemma {:induction false} GreedySame(cands: seq<Candidate>, eps: real, budget: int, one: set<nat>, two: set<nat>,
      order: seq<nat>, a: nat)
    requires eps > 0.0 && Greedy(cands, eps, budget, one) && Greedy(cands, eps, budget, two)
    requires a < |order| && Below(order, |cands|) && InOrder(order, Before(cands, eps))
    requires StrictOrder(Before(cands, eps), |cands|) && Covers(order, |cands|)
    ensures order[a] in one <==> order[a] in two
    decreases a
  {
    var before := Before(cands, eps);
    var x := order[a];
    forall j: nat | j < |cands| && before(j, x)
      ensures j in one <==> j in two
    {
      assert Has(order, j);
      var b: nat :| b < |order| && order[b] == j;
      ComesFirst(order, before, |cands|, a, b);
      GreedySame(cands, eps, budget, one, two, order, b);
    }
    assert Ahead(cands, eps, one, x) == Ahead(cands, eps, two, x);
  }

  /** Nothing left out would still fit on top of what was chosen. */
  lemma GreedyFull(cands: seq<Candidate>, eps: real, budget: int, chosen: set<nat>, i: nat)
    requires eps > 0.0 && Greedy(cands, eps, budget, chosen) && i < |cands| && i !in chosen
    ensures !Fits(cands, chosen, i, budget)
  {
    WeightGrows(cands, Ahead(cands, eps, chosen, i), chosen, |cands|);
  }

  /** The first pass: take each candidate of the order that still fits. */
  method Fill(cands: seq<Candidate>, order: seq<nat>, eps: real, budget: int) returns (selected: seq<nat>, used: nat)
    requires eps > 0.0 && StrictOrder(Before(cands, eps), |cands|) && InOrder(order, Before(cands, eps))
      && Below(order, |cands|)
    requires Covers(order, |cands|)
    ensures Greedy(cands, eps, budget, Members(selected)) && Distinct(selected) && Below(selected, |cands|)
    ensures used == Weight(cands, Members(selected), |cands|) && (selected != [] ==> used <= budget)
  {
    selected, used := [], 0;
    var k := 0;
    EmptyWeight(cands, |cands|);
    while k < |order|
      invariant k <= |order| && Distinct(selected) && Below(selected, |cands|)
      invariant used == Weight(cands, Members(selected), |cands|) && (selected != [] ==> used <= budget)
      invariant Decided(cands, eps, budget, order, k, Members(selected))
    {
      hide StrictOrder, InOrder, Decided, Before;
      var x := order[k];
      DecidedStep(cands, eps, budget, order, k, Members(selected));
      var cost := Cost(cands[x]);
      if cost.Some? && used + cost.value <= budget {
        assert Members(selected + [x]) == Members(selected) + {x};
        WeightAdds(cands, Members(selected), x, |cands|);
        selected := selected + [x];
        used := used + cost.value;
      }
      k := k + 1;
    }
    DecidedAll(cands, eps, budget, order, Members(selected));
  }

  lemma {:induction false} EmptyWeight(cands: seq<Candidate>, n: nat)
    requires n <= |cands|
    ensures Weight(cands, {}, n) == 0 && Weight(cands, Members([]), n) == 0
  {
    assert Members([]) == {};
    if n > 0 { EmptyWeight(cands, n - 1); }
  }

  function Earlier(): (nat, nat) -> bool {
    (i: nat, j: nat) => i < j
  }

  lemma SortPicked(picked: seq<nat>, n: nat)
    requires Below(picked, n) && Distinct(picked)
    ensures var r := SortBy(Earlier(), picked);
      Ascending(r) && Below(r, n) && |r| == |picked| && Members(r) == Members(picked)
  {
    SortByOrders(Earlier(), picked, n);
  }

  /** What is returned when something fitted, or nothing must be returned. */
  ghost predicate Packed(cands: seq<Candidate>, budget: int, eps: real, selected: seq<nat>, used: Option<nat>)
    requires eps > 0.0
  {
    && Greedy(cands, eps, budget, Members(selected))
    && used == Some(Weight(cands, Members(selected), |cands|))
    && (selected != [] ==> used.value <= budget)
  }

  /** What is returned when nothing fitted and something must be: the best candidate, whatever it costs. */
  ghost predicate Forced(cands: seq<Candidate>, budget: int, eps: real, selected: seq<nat>, used: Option<nat>)
    requires eps > 0.0
  {
    Greedy(cands, eps, budget, {}) && |selected| == 1 && Best(cands, selected[0]) && used == Cost(cands[selected[0]])
  }

  method PackByBudget(cands: seq<Candidate>, budget: int, eps: real, atLeastOne: bool)
    returns (selected: seq<nat>, used: Option<nat>, dropped: nat)
    requires eps > 0.0
    ensures Below(selected, |cands|) && Ascending(selected) && dropped == |cands| - |selected|
    ensures Packed(cands, budget, eps, selected, used) || (atLeastOne && Forced(cands, budget, eps, selected, used))
    ensures atLeastOne && cands != [] ==> selected != []
  {
    var before := Before(cands, eps);
    var order := SortBy(before, Upto(|cands|));
    OrderReady(cands, eps);
    var picked, total := Fill(cands, order, eps, budget);
    used := Some(total);
    if picked == [] && cands != [] && atLeastOne {
      var best := BestOf(cands);
      assert Members(picked) == {};
      picked := [best];
      used := Cost(cands[best]);
    }
    SortPicked(picked, |cands|);
    selected := SortBy(Earlier(), picked);
    SameSize(selected, |cands|);
    assert |picked| == 1 ==> selected[0] in Members(selected);
    assert |picked| == 1 ==> selected[0] in Members(picked);
    dropped := |cands| - |selected|;
  }

  lemma OrderReady(cands: seq<Candidate>, eps: real)
    requires eps > 0.0
    ensures var before := Before(cands, eps);
      var order := SortBy(before, Upto(|cands|));
      && StrictOrder(before, |cands|) && InOrder(order, before) && Below(order, |cands|)
      && Covers(order, |cands|)
  {
    BeforeOrders(cands, eps);
    SortByOrders(Before(cands, eps), Upto(|cands|), |cands|);
    var order := SortBy(Before(cands, eps), Upto(|cands|));
    forall i: nat | i < |cands|
      ensures Has(order, i)
    {
      assert Upto(|cands|)[i] in Upto(|cands|);
      assert i in order;
    }
  }

  /** Ascending indices below `n` are at most `n` in number. */
  lemma {:induction false} SameSize(s: seq<nat>, n: nat)
    requires Ascending(s) && Below(s, n)
    ensures |s| <= n
  {
    if s != [] {
      var m := s[|s| - 1];
      SameSize(s[..|s| - 1], m);
    }
  }

  /** The first candidate of the highest score. */
  method BestOf(cands: seq<Candidate>) returns (best: nat)
    requires cands != []
    ensures Best(cands, best)
  {
    best := 0;
    var i := 1;
    while i < |cands|
      invariant 0 < i <= |cands| && best < i
      invariant forall j :: 0 <= j < i ==> cands[j].score <= cands[best].score
      invariant forall j :: 0 <= j < best ==> cands[j].score < cands[best].score
    {
      if cands[i].score > cands[best].score { best := i; }
      i := i + 1;
    }
  }

  // ---------- token estimates ----------

  /** A token for every four characters, the last one possibly short. */
  function Tokens(s: string): (r: nat)
    ensures 4 * r - 4 < |s| <= 4 * r || |s| == r == 0
  {
    (|s| + 3) / 4
  }

  lemma TokensSplit(a: string, b: string)
    ensures Tokens(a + b) <= Tokens(a) + Tokens(b)
  {
  }

  function Decimal(n: nat): string {
    (if n < 10 then "" else Decimal(n / 10)) + [('0' as int + n % 10) as char]
  }

  ghost function DigitsValue(s: string): int {
    if s == "" then 0 else 10 * DigitsValue(s[..|s| - 1]) + (s[|s| - 1] as int - 48)
  }

  ghost predicate AllDigits(s: string) {
    forall i :: 0 <= i < |s| ==> '0' <= s[i] <= '9'
  }

  /** A number is written in digits that read back as it, without a leading zero. */
  lemma {:induction false} DecimalReads(n: nat)
    ensures DigitsValue(Decimal(n)) == n && AllDigits(Decimal(n))
    ensures Decimal(n) != "" && (Decimal(n)[0] == '0' ==> n == 0)
  {
    if n >= 10 {
      DecimalReads(n / 10);
      DigitAppended(Decimal(n / 10), n % 10);
    } else {
      DigitAppended("", n);
      assert "" + [('0' as int + n) as char] == [('0' as int + n) as char];
    }
    hide DigitsValue, AllDigits;
  }

  lemma DigitAppended(s: string, d: nat)
    requires d < 10 && AllDigits(s)
    ensures var t := s + [('0' as int + d) as char];
      DigitsValue(t) == 10 * DigitsValue(s) + d && AllDigits(t)
  {
    var t := s + [('0' as int + d) as char];
    assert t[..|t| - 1] == s;
  }

  lemma {:induction false} DecimalMonotone(m: nat, n: nat)
    requires m <= n
    ensures |Decimal(m)| <= |Decimal(n)| && 1 <= |Decimal(n)|
    decreases n
  {
    if n >= 10 && m >= 10 { DecimalMonotone(m / 10, n / 10); }
    if n >= 10 { DecimalMonotone(n / 10, n / 10); }
  }

  lemma {:induction false} DecimalShort(n: nat)
    requires n > 0
    ensures |Decimal(n)| <= n
  {
    if n >= 10 { DecimalShort(n / 10); }
  }

  // ---------- the report ----------

  /** The budget asked for; a missing or zero one is 4000, and none is below 500. */
  function Budget(requested: int): (r: int)
    ensures requested == 0 ==> r == 4000
    ensures requested != 0 ==> r >= 500 && r >= requested && r in {500, requested}
  {
    var asked := if requested == 0 then 4000 else requested;
    if asked < 500 then 500 else asked
  }

  function Footer(used: nat, budget: nat): string {
    "\n(~" + Decimal(used) + "/" + Decimal(budget) + " tokens)"
  }

  const HEADING := "## Entry Points"

  /** What is left for content once the widest footer and its separator are paid for. */
  function ContentBudget(budget: nat): int {
    budget - Tokens("\n" + Footer(budget, budget))
  }

  function Join(sections: seq<string>): string {
    if sections == [] then "" else if |sections| == 1 then sections[0] else sections[0] + "\n" + Join(sections[1..])
  }

  /** A search hit: its entry line, and its source text when that could be read. */
  datatype Hit = Hit(line: string, body: Option<string>)

  function Candidates(bodies: seq<Option<string>>): seq<Candidate> {
    seq(|bodies|, i requires 0 <= i < |bodies| =>
      var tokens := if bodies[i].Some? && bodies[i].value != "" then Some(Tokens("\n" + bodies[i].value)) else None;
      Candidate(tokens, (|bodies| - i) as real))
  }

  /** Every line that still fits behind those kept, in order. */
  ghost predicate EntriesOf(lines: seq<string>, room: int, kept: seq<nat>, section: string) {
    EntriesTo(lines, room, kept, section, |lines|)
  }

  /** The same for the first `n` lines. */
  ghost predicate EntriesTo(lines: seq<string>, room: int, kept: seq<nat>, section: string, n: nat)
    requires n <= |lines|
  {
    && Below(kept, n) && Ascending(kept)
    && section == Listed(lines, kept)
    && (forall i: nat :: i < n ==> (i in kept <==> FitsBehind(lines, room, Sooner(kept, i), i)))
  }

  ghost predicate FitsBehind(lines: seq<string>, room: int, kept: seq<nat>, i: nat)
    requires i < |lines|
  {
    Tokens(Listed(lines, kept) + "\n" + lines[i]) <= room
  }

  /** The heading and these lines below it. */
  ghost function Listed(lines: seq<string>, kept: seq<nat>): string {
    if kept == [] || kept[|kept| - 1] >= |lines| then HEADING
    else Listed(lines, kept[..|kept| - 1]) + "\n" + lines[kept[|kept| - 1]]
  }

  /** The members of an ascending sequence that are below `i`. */
  ghost function Sooner(kept: seq<nat>, i: nat): seq<nat> {
    if kept == [] || kept[|kept| - 1] < i then kept else Sooner(kept[..|kept| - 1], i)
  }

  lemma {:induction false} SoonerSame(kept: seq<nat>, i: nat, j: nat)
    requires Below(kept, i) && j <= i
    ensures Sooner(kept, i) == kept && Sooner(kept + [i], j) == Sooner(kept, j)
  {
    assert (kept + [i])[..|kept|] == kept;
  }

  lemma EntriesStep(lines: seq<string>, room: int, kept: seq<nat>, section: string, i: nat)
    requires i < |lines| && EntriesTo(lines, room, kept, section, i)
    ensures var candidate := section + "\n" + lines[i];
      if Tokens(candidate) <= room then EntriesTo(lines, room, kept + [i], candidate, i + 1)
      else EntriesTo(lines, room, kept, section, i + 1)
  {
    var candidate := section + "\n" + lines[i];
    forall j: nat | j <= i
      ensures Sooner(kept + [i], j) == Sooner(kept, j) && Sooner(kept, i) == kept
    {
      SoonerSame(kept, i, j);
    }
    assert Listed(lines, kept + [i]) == candidate by { assert (kept + [i])[..|kept|] == kept; }
    assert FitsBehind(lines, room, kept, i) <==> Tokens(candidate) <= room;
    hide Tokens, Listed, Sooner, FitsBehind;
  }

  /** The entry section: each line in turn, when the section still fits the room with it. */
  method Entries(lines: seq<string>, room: int) returns (section: string, ghost kept: seq<nat>)
    requires Tokens(HEADING) <= room
    ensures EntriesOf(lines, room, kept, section) && Tokens(section) <= room
  {
    hide *;
    NoEntries(lines, room);
    section, kept := HEADING, [];
    var i := 0;
    while i < |lines|
      invariant i <= |lines| && EntriesTo(lines, room, kept, section, i) && Tokens(section) <= room
    {
      EntriesStep(lines, room, kept, section, i);
      var candidate := section + "\n" + lines[i];
      if Tokens(candidate) <= room {
        section := candidate;
        kept := kept + [i];
      }
      i := i + 1;
    }
    AllEntries(lines, room, kept, section);
  }

  lemma NoEntries(lines: seq<string>, room: int)
    ensures EntriesTo(lines, room, [], HEADING, 0)
  {
  }

  lemma AllEntries(lines: seq<string>, room: int, kept: seq<nat>, section: string)
    requires EntriesTo(lines, room, kept, section, |lines|)
    ensures EntriesOf(lines, room, kept, section)
  {
  }

  /** There is a body at each of these places. */
  ghost predicate Present(bodies: seq<Option<string>>, places: seq<nat>) {
    forall k :: 0 <= k < |places| ==> places[k] < |bodies| && bodies[places[k]].Some? && bodies[places[k]].value != ""
  }

  function Chosen(bodies: seq<Option<string>>, places: seq<nat>): seq<string>
    requires Present(bodies, places)
  {
    if places == [] then [] else Chosen(bodies, places[..|places| - 1]) + [bodies[places[|places| - 1]].value]
  }

  /** What sections cost when each is joined on behind another. */
  ghost function Joined(sections: seq<string>): nat {
    if sections == [] then 0 else Joined(sections[..|sections| - 1]) + Tokens("\n" + sections[|sections| - 1])
  }

  lemma {:induction false} JoinAppends(sections: seq<string>, last: string)
    requires sections != []
    ensures Join(sections + [last]) == Join(sections) + ("\n" + last)
  {
    var all := sections + [last];
    assert all[1..] == sections[1..] + [last];
    if |sections| == 1 {
      assert all == [sections[0], last];
      assert all[1..] == [last];
    } else {
      JoinAppends(sections[1..], last);
    }
  }

  lemma {:induction false} JoinCosts(first: string, rest: seq<string>)
    ensures Tokens(Join([first] + rest)) <= Tokens(first) + Joined(rest)
  {
    if rest != [] {
      var init, last := rest[..|rest| - 1], rest[|rest| - 1];
      JoinCosts(first, init);
      JoinAppends([first] + init, last);
      assert [first] + init + [last] == [first] + rest by { assert init + [last] == rest; }
      TokensSplit(Join([first] + init), "\n" + last);
    }
  }

  /** Chosen bodies cost, joined on, exactly what the packing charged for them. */
  lemma {:induction false} ChosenCost(bodies: seq<Option<string>>, places: seq<nat>)
    requires Present(bodies, places)
    requires Ascending(places)
    ensures Joined(Chosen(bodies, places)) == Weight(Candidates(bodies), Members(places), |bodies|)
  {
    var cands := Candidates(bodies);
    EmptyWeight(cands, |bodies|);
    if places != [] {
      var init, x := places[..|places| - 1], places[|places| - 1];
      ChosenCost(bodies, init);
      assert Members(places) == Members(init) + {x} by { assert places == init + [x]; }
      WeightAdds(cands, Members(init), x, |bodies|);
      var text := bodies[x].value;
      assert Chosen(bodies, places) == Chosen(bodies, init) + [text];
    }
  }

  /** Scores that fall by one keep every candidate in its own bucket, in its own place. */
  lemma PlacesOrder(bodies: seq<Option<string>>, i: nat, j: nat)
    requires i < |bodies| && j < |bodies|
    ensures Before(Candidates(bodies), 0.02)(i, j) <==> i < j
  {
    BucketsApart(|bodies| - i);
    BucketsApart(|bodies| - j);
  }

  lemma BucketsApart(score: int)
    ensures (score as real / 0.02 + 0.5).Floor == 50 * score
  {
    assert score as real / 0.02 == (50 * score) as real;
  }

  lemma FooterFits(used: nat, budget: nat)
    requires used <= budget
    ensures Tokens("\n" + Footer(used, budget)) <= Tokens("\n" + Footer(budget, budget))
  {
    DecimalMonotone(used, budget);
  }

  lemma RoomForHeading(budget: nat)
    requires budget >= 500
    ensures Tokens(HEADING) <= ContentBudget(budget) <= budget
  {
    DecimalShort(budget);
  }

  datatype Reply = NoResults | Report(text: string)

  function First<T>(s: seq<T>, n: nat): seq<T> {
    if |s| <= n then s else s[..n]
  }

  function Lines(hits: seq<Hit>): seq<string> {
    seq(|hits|, i requires 0 <= i < |hits| => hits[i].line)
  }

  function Bodies(hits: seq<Hit>): seq<Option<string>> {
    seq(|hits|, i requires 0 <= i < |hits| => hits[i].body)
  }

  /** What a report is made of: the entry section, the bodies that were packed into the rest of the content
      budget, and a footer that names their joint cost. */
  ghost predicate Reports(lines: seq<string>, bodies: seq<Option<string>>, budget: nat, text: string, kept: seq<nat>,
      places: seq<nat>, section: string) {
    var room := ContentBudget(budget);
    && EntriesOf(lines, room, kept, section)
    && Ascending(places) && Greedy(Candidates(bodies), 0.02, room - Tokens(section), Members(places))
    && Present(bodies, places)
    && var used := Tokens(section) + Weight(Candidates(bodies), Members(places), |bodies|);
       text == Join([section] + Chosen(bodies, places) + ["\n(~" + Decimal(used) + "/" + Decimal(budget) + " tokens)"])
  }

  /** A report never costs more than its budget, its separators and its footer included. */
  method BuildContext(hits: seq<Hit>, requested: int)
    returns (reply: Reply, ghost kept: seq<nat>, ghost places: seq<nat>, ghost section: string)
    ensures reply.NoResults? <==> hits == []
    ensures reply.Report? ==> Tokens(reply.text) <= Budget(requested)
    ensures reply.Report? ==>
      var lines := seq(if |hits| < 5 then |hits| else 5, i requires 0 <= i < |hits| => hits[i].line);
      var bodies := seq(if |hits| < 3 then |hits| else 3, i requires 0 <= i < |hits| => hits[i].body);
      Reports(lines, bodies, Budget(requested), reply.text, kept, places, section)
  {
    if hits == [] {
      reply, kept, places, section := NoResults, [], [], "";
      return;
    }
    assert Lines(First(hits, 5)) == seq(if |hits| < 5 then |hits| else 5, i requires 0 <= i < |hits| => hits[i].line);
    assert Bodies(First(hits, 3)) == seq(if |hits| < 3 then |hits| else 3, i requires 0 <= i < |hits| => hits[i].body);
    var text, k, p, s := Assemble(Lines(First(hits, 5)), Bodies(First(hits, 3)), Budget(requested));
    reply, kept, places, section := Report(text), k, p, s;
  }

  method Assemble(lines: seq<string>, bodies: seq<Option<string>>, budget: nat)
    returns (text: string, ghost kept: seq<nat>, ghost places: seq<nat>, ghost section: string)
    requires budget >= 500
    ensures Tokens(text) <= budget && Reports(lines, bodies, budget, text, kept, places, section)
  {
    hide *;
    var room := ContentBudget(budget);
    RoomForHeading(budget);
    var entries, k := Entries(lines, room);
    CandidateCount(bodies);
    var selected, cost, dropped := PackByBudget(Candidates(bodies), room - Tokens(entries), 0.02, false);
    section, kept, places := entries, k, selected;
    PackedBodies(bodies, room - Tokens(section), places, cost);
    var used := Tokens(entries) + cost.value;
    text := Join([entries] + Chosen(bodies, selected) + [Footer(used, budget)]);
    WholeFits(section, bodies, places, used, budget);
    ReportMade(lines, bodies, budget, text, kept, places, section);
  }

  lemma ReportMade(lines: seq<string>, bodies: seq<Option<string>>, budget: nat, text: string, kept: seq<nat>,
      places: seq<nat>, section: string)
    requires EntriesOf(lines, ContentBudget(budget), kept, section) && Ascending(places)
    requires Greedy(Candidates(bodies), 0.02, ContentBudget(budget) - Tokens(section), Members(places))
    requires Present(bodies, places) && |Candidates(bodies)| == |bodies|
    requires text == Join([section] + Chosen(bodies, places)
      + [Footer(Tokens(section) + Weight(Candidates(bodies), Members(places), |bodies|), budget)])
    ensures Reports(lines, bodies, budget, text, kept, places, section)
  {
  }

  lemma CandidateCount(bodies: seq<Option<string>>)
    ensures |Candidates(bodies)| == |bodies|
  {
  }

  lemma PackedBodies(bodies: seq<Option<string>>, budget: int, selected: seq<nat>, cost: Option<nat>)
    requires Packed(Candidates(bodies), budget, 0.02, selected, cost) && Below(selected, |bodies|) && budget >= 0
    ensures cost.Some? && cost.value == Weight(Candidates(bodies), Members(selected), |bodies|) <= budget
    ensures Greedy(Candidates(bodies), 0.02, budget, Members(selected))
    ensures Present(bodies, selected)
  {
    EmptyWeight(Candidates(bodies), |bodies|);
    SelectedHaveBodies(bodies, budget, selected, cost);
  }

  lemma SelectedHaveBodies(bodies: seq<Option<string>>, budget: int, selected: seq<nat>, cost: Option<nat>)
    requires Packed(Candidates(bodies), budget, 0.02, selected, cost) && Below(selected, |bodies|)
    ensures forall k :: 0 <= k < |selected| ==> bodies[selected[k]].Some? && bodies[selected[k]].value != ""
  {
    forall k | 0 <= k < |selected|
      ensures bodies[selected[k]].Some? && bodies[selected[k]].value != ""
    {
      assert selected[k] in Members(selected);
    }
  }

  lemma WholeFits(section: string, bodies: seq<Option<string>>, places: seq<nat>, used: nat, budget: nat)
    requires Present(bodies, places)
    requires Ascending(places) && budget >= 500
    requires used == Tokens(section) + Weight(Candidates(bodies), Members(places), |bodies|)
      && used <= ContentBudget(budget)
    ensures Tokens(Join([section] + Chosen(bodies, places) + [Footer(used, budget)])) <= budget
  {
    var chosen, last := Chosen(bodies, places), Footer(used, budget);
    var rest := chosen + [last];
    RoomForHeading(budget);
    ChosenCost(bodies, places);
    JoinCosts(section, rest);
    FooterFits(used, budget);
    assert rest[..|rest| - 1] == chosen;
    assert [section] + chosen + [last] == [section] + rest;
    hide Tokens, Join, Footer, Weight, Chosen;
  }
}
