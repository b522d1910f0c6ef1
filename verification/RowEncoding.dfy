/** The canonical row encoding: a per-value reference form, the columnar form the script computes,
    and why the bytes of a row determine the row. */
module RowEncoding {
  import opened Basics
  import opened ByteStrings
  import opened Arrow

  // ---------- reference encoding of one value ----------

  function ValidityBytes(valid: seq<bool>): (r: Bytes)
    ensures |r| == |valid|
  {
    seq(|valid|, i requires 0 <= i < |valid| => if valid[i] then 1 else 0)
  }

  /** Encodes one value of a supported type. Lists of numbers write all validity bytes and then all
      cells; every other list writes its children one after the other. */
  function EncodeValue(t: Type, v: Value): Bytes
    requires Supported(t) && HasType(v, t)
    decreases t, v, 0
  {
    if t.Dictionary? then EncodeValue(t.values, v) else
    match v
    case Missing => [0]
    case Cell(b) => [1] + b
    case Text(b) => [1] + U64(|b|) + b
    case Items(items) =>
      [1] + (if t.List? then U64(|items|) else []) + EncodeItems(t.child, items)
  }

  function EncodeItems(t: Type, items: seq<Value>): Bytes
    requires Supported(t) && AllHaveType(items, t)
    decreases t, items, 1
  {
    if t.Number? then ValidityBytes(Mask(items)) + Flatten(FilledCells(items, t.width))
    else EncodeEach(t, items)
  }

  function EncodeEach(t: Type, items: seq<Value>): Bytes
    requires Supported(t) && AllHaveType(items, t)
    decreases t, items, 0
  {
    if items == [] then [] else
      assert HasType(items[0], t);
      EncodeValue(t, items[0]) + EncodeEach(t, items[1..])
  }

  // ---------- unique decodability ----------

  lemma MaskedCellsInjective(xs: seq<Value>, ys: seq<Value>, w: nat)
    requires |xs| == |ys| && AllHaveType(xs, Number(w)) && AllHaveType(ys, Number(w))
    requires ValidityBytes(Mask(xs)) == ValidityBytes(Mask(ys))
    requires Flatten(FilledCells(xs, w)) == Flatten(FilledCells(ys, w))
    ensures xs == ys
  {
    assert forall i :: 0 <= i < |xs| ==> HasType(xs[i], Number(w)) && HasType(ys[i], Number(w));
    FlattenInjective(FilledCells(xs, w), FilledCells(ys, w));
    forall i | 0 <= i < |xs|
      ensures xs[i] == ys[i]
    {
      assert ValidityBytes(Mask(xs))[i] == ValidityBytes(Mask(ys))[i];
      assert FilledCells(xs, w)[i] == FilledCells(ys, w)[i];
    }
  }

  lemma NumbersDecodable(w: nat, xs: seq<Value>, s: Bytes, ys: seq<Value>, u: Bytes)
    requires |xs| == |ys| && AllHaveType(xs, Number(w)) && AllHaveType(ys, Number(w))
    requires EncodeItems(Number(w), xs) + s == EncodeItems(Number(w), ys) + u
    ensures xs == ys && s == u
  {
    var cx, cy := FilledCells(xs, w), FilledCells(ys, w);
    assert forall i :: 0 <= i < |xs| ==> HasType(xs[i], Number(w)) && HasType(ys[i], Number(w));
    FlattenUniformLength(cx, w);
    FlattenUniformLength(cy, w);
    StripPrefix(EncodeItems(Number(w), xs), s, EncodeItems(Number(w), ys), u);
    StripPrefix(ValidityBytes(Mask(xs)), Flatten(cx), ValidityBytes(Mask(ys)), Flatten(cy));
    MaskedCellsInjective(xs, ys, w);
  }

  /** No encoding of a value runs into what follows it: equal bytes mean equal values and equal rests. */
  lemma {:induction false} UniquelyDecodable(t: Type, v: Value, s: Bytes, w: Value, u: Bytes)
    requires Supported(t) && HasType(v, t) && HasType(w, t)
    requires EncodeValue(t, v) + s == EncodeValue(t, w) + u
    ensures v == w && s == u
    decreases t, v, 2
  {
    var ev, ew := EncodeValue(t, v), EncodeValue(t, w);
    if t.Dictionary? {
      UniquelyDecodable(t.values, v, s, w, u);
    } else {
      assert ev[0] == (ev + s)[0] && ew[0] == (ew + u)[0];
      if v.Missing? || w.Missing? {
        StripPrefix(ev, s, ew, u);
      } else {
        PayloadDecodable(t, v, s, w, u);
      }
    }
  }

  lemma {:induction false} PayloadDecodable(t: Type, v: Value, s: Bytes, w: Value, u: Bytes)
    requires Supported(t) && HasType(v, t) && HasType(w, t) && !t.Dictionary?
    requires !v.Missing? && !w.Missing?
    requires EncodeValue(t, v) + s == EncodeValue(t, w) + u
    ensures v == w && s == u
    decreases t, v, 1
  {
    match v
    case Cell(b) =>
      StripPrefix(EncodeValue(t, v), s, EncodeValue(t, w), u);
      StripPrefix([1], b, [1], w.bytes);
    case Text(b) =>
      TextDecodable(b, s, w.bytes, u);
    case Items(xs) =>
      ListDecodable(t, xs, s, w.items, u);
  }

  /** A tag and a frame of known length come off the front of equal byte strings. */
  lemma FrameStripped(tag: Bytes, p: Bytes, x: Bytes, s: Bytes, q: Bytes, y: Bytes, u: Bytes)
    requires |p| == |q| && tag + p + x + s == tag + q + y + u
    ensures p == q && x + s == y + u
  {
    assert tag + p + x + s == (tag + p) + (x + s);
    assert tag + q + y + u == (tag + q) + (y + u);
    StripPrefix(tag + p, x + s, tag + q, y + u);
    StripPrefix(tag, p, tag, q);
  }

  lemma TextDecodable(b: Bytes, s: Bytes, c: Bytes, u: Bytes)
    requires |b| < TWO_64 && |c| < TWO_64
    requires [1] + U64(|b|) + b + s == [1] + U64(|c|) + c + u
    ensures b == c && s == u
  {
    FrameStripped([1], U64(|b|), b, s, U64(|c|), c, u);
    U64Injective(|b|, |c|);
    StripPrefix(b, s, c, u);
  }

  lemma {:induction false} ListDecodable(t: Type, xs: seq<Value>, s: Bytes, ys: seq<Value>, u: Bytes)
    requires Supported(t) && (t.List? || t.FixedList?) && HasType(Items(xs), t) && HasType(Items(ys), t)
    requires EncodeValue(t, Items(xs)) + s == EncodeValue(t, Items(ys)) + u
    ensures xs == ys && s == u
    decreases t, Items(xs), 0
  {
    var px, py := if t.List? then U64(|xs|) else [], if t.List? then U64(|ys|) else [];
    var ex, ey := EncodeItems(t.child, xs), EncodeItems(t.child, ys);
    FrameStripped([1], px, ex, s, py, ey, u);
    if t.List? { U64Injective(|xs|, |ys|); }
    if t.child.Number? {
      NumbersDecodable(t.child.width, xs, s, ys, u);
    } else {
      EachDecodable(t.child, xs, s, ys, u);
    }
  }

  lemma {:induction false} EachDecodable(t: Type, xs: seq<Value>, s: Bytes, ys: seq<Value>, u: Bytes)
    requires Supported(t) && |xs| == |ys| && AllHaveType(xs, t) && AllHaveType(ys, t)
    requires EncodeEach(t, xs) + s == EncodeEach(t, ys) + u
    ensures xs == ys && s == u
    decreases t, xs
  {
    if xs == [] {
      assert EncodeEach(t, xs) + s == s && EncodeEach(t, ys) + u == u;
    } else {
      assert HasType(xs[0], t) && HasType(ys[0], t);
      EachOpens(t, xs, s);
      EachOpens(t, ys, u);
      hide EncodeValue, EncodeEach, HasType, Supported;
      var rx, ry := EncodeEach(t, xs[1..]), EncodeEach(t, ys[1..]);
      UniquelyDecodable(t, xs[0], rx + s, ys[0], ry + u);
      assert AllHaveType(xs[1..], t) && AllHaveType(ys[1..], t);
      EachDecodable(t, xs[1..], s, ys[1..], u);
      assert xs == [xs[0]] + xs[1..] && ys == [ys[0]] + ys[1..];
    }
  }

  lemma EachOpens(t: Type, xs: seq<Value>, s: Bytes)
    requires xs != [] && Supported(t) && AllHaveType(xs, t)
    ensures AllHaveType(xs[1..], t) && HasType(xs[0], t)
    ensures EncodeEach(t, xs) + s == EncodeValue(t, xs[0]) + (EncodeEach(t, xs[1..]) + s)
  {
    hide EncodeValue, Supported;
  }

  // ---------- whole rows ----------

  ghost predicate RowTyped(types: seq<Type>, row: seq<Value>) {
    |row| == |types| && forall i :: 0 <= i < |types| ==> Supported(types[i]) && HasType(row[i], types[i])
  }

  /** What one row feeds the hasher: its column encodings, in order. */
  function EncodeRow(types: seq<Type>, row: seq<Value>): Bytes
    requires RowTyped(types, row)
  {
    if types == [] then [] else EncodeValue(types[0], row[0]) + EncodeRow(types[1..], row[1..])
  }

  /** Under one schema the concatenated bytes of a row determine every field. */
  lemma {:induction false} RowDetermined(types: seq<Type>, x: seq<Value>, y: seq<Value>)
    requires RowTyped(types, x) && RowTyped(types, y)
    requires EncodeRow(types, x) == EncodeRow(types, y)
    ensures x == y
  {
    if types != [] {
      UniquelyDecodable(types[0], x[0], EncodeRow(types[1..], x[1..]), y[0], EncodeRow(types[1..], y[1..]));
      RowDetermined(types[1..], x[1..], y[1..]);
      assert x == [x[0]] + x[1..] && y == [y[0]] + y[1..];
    }
  }

  // ---------- the columnar encoder ----------

  /** `fill_null` on numbers and booleans, then one entry per element. */
  function FilledColumn(a: Array): (r: seq<Bytes>)
    requires Valid(a) && a.buffer.Flat?
    ensures |r| == a.len && Uniform(r, CellWidth(TypeOf(a)))
  {
    seq(a.len, i requires 0 <= i < a.len =>
      if IsValid(a, i) then a.buffer.cells[a.offset + i] else ZeroCell(CellWidth(TypeOf(a))))
  }

  function ValidColumn(a: Array): (r: seq<bool>)
    requires Valid(a)
    ensures |r| == a.len
  {
    seq(a.len, i requires 0 <= i < a.len => IsValid(a, i))
  }

  /** `dictionary_decode`: an array of the value type holding the same logical rows. */
  function Decode(a: Array): (r: Array)
    requires Valid(a) && a.buffer.Coded?
    ensures Valid(r) && TypeOf(r) == TypeOf(a.buffer.dictionary) && Rows(r) == Rows(a) && r.len == a.len
  {
    RowsHaveType(a);
    assert AllHaveType(Rows(a), TypeOf(a.buffer.dictionary)) by {
      assert forall i :: 0 <= i < a.len ==> HasType(Rows(a)[i], TypeOf(a));
    }
    FromRowsRoundTrip(TypeOf(a.buffer.dictionary), Rows(a));
    FromRows(TypeOf(a.buffer.dictionary), Rows(a))
  }

  function EncodeFlat(a: Array): (r: seq<Bytes>)
    requires Valid(a) && a.buffer.Flat?
    ensures |r| == a.len
  {
    var w := CellWidth(TypeOf(a));
    var data := Flatten(FilledColumn(a));
    seq(a.len, i requires 0 <= i < a.len =>
      FlattenUniformSlice(FilledColumn(a), w, i, i + 1);
      if IsValid(a, i) then [1] + data[i * w..(i + 1) * w] else [0])
  }

  function EncodeVarBytes(a: Array): (r: seq<Bytes>)
    requires Valid(a) && a.buffer.VarBytes?
    ensures |r| == a.len
  {
    var offsets, data := a.buffer.offsets, a.buffer.data;
    seq(a.len, i requires 0 <= i < a.len =>
      var j := a.offset + i;
      if IsValid(a, i) then [1] + U64(offsets[j + 1] - offsets[j]) + data[offsets[j]..offsets[j + 1]] else [0])
  }

  /** `array.values.slice(array.offset*width, len(array)*width)` */
  function FixedChildren(a: Array): (r: Array)
    requires Valid(a) && a.buffer.FixedLists?
    ensures Valid(r) && TypeOf(r) == TypeOf(a.buffer.child) && r.len == a.len * a.buffer.size
  {
    MulMono(a.offset, a.offset + a.len, a.buffer.size);
    SliceValid(a.buffer.child, a.offset * a.buffer.size, a.len * a.buffer.size);
    Slice(a.buffer.child, a.offset * a.buffer.size, a.len * a.buffer.size)
  }

  /** The part of the child array a list slice can reach; row offsets are rebased to its start. */
  function ListChildren(a: Array): (r: Array)
    requires Valid(a) && a.buffer.Lists?
    ensures Valid(r) && TypeOf(r) == TypeOf(a.buffer.child)
    ensures forall i :: 0 <= i <= a.len ==> 0 <= Rebased(a, i) <= r.len
    ensures forall i, j :: 0 <= i <= j <= a.len ==> Rebased(a, i) <= Rebased(a, j)
  {
    var start, end := a.buffer.offsets[a.offset], a.buffer.offsets[a.offset + a.len];
    SliceValid(a.buffer.child, start, end - start);
    Slice(a.buffer.child, start, end - start)
  }

  function Rebased(a: Array, i: nat): int
    requires a.buffer.Lists? && a.offset + a.len < |a.buffer.offsets| && i <= a.len
  {
    var at: int, start: int := a.buffer.offsets[a.offset + i], a.buffer.offsets[a.offset];
    at - start
  }

  /** The fast path for children that are numbers: a run of validity bytes, then a run of data. */
  function NumberRun(children: Array, lo: nat, hi: nat): Bytes
    requires Valid(children) && TypeOf(children).Number? && lo <= hi <= children.len
  {
    var w := CellWidth(TypeOf(children));
    var data := Flatten(FilledColumn(children));
    FlattenUniformSlice(FilledColumn(children), w, lo, hi);
    ValidityBytes(ValidColumn(children))[lo..hi] + data[lo * w..hi * w]
  }

  function EncodeFixedNumbers(a: Array): (r: seq<Bytes>)
    requires Valid(a) && a.buffer.FixedLists? && TypeOf(a.buffer.child).Number?
    ensures |r| == a.len
  {
    var n, children := a.buffer.size, FixedChildren(a);
    seq(a.len, i requires 0 <= i < a.len =>
      MulMono(i + 1, a.len, n);
      MulMono(i, i + 1, n);
      if IsValid(a, i) then [1] + NumberRun(children, i * n, (i + 1) * n) else [0])
  }

  function EncodeFixed(a: Array, encoded: seq<Bytes>): (r: seq<Bytes>)
    requires Valid(a) && a.buffer.FixedLists? && |encoded| == a.len * a.buffer.size
    ensures |r| == a.len
  {
    var n := a.buffer.size;
    seq(a.len, i requires 0 <= i < a.len =>
      MulMono(i + 1, a.len, n);
      MulMono(i, i + 1, n);
      if IsValid(a, i) then [1] + Flatten(encoded[i * n..(i + 1) * n]) else [0])
  }

  function EncodeListNumbers(a: Array): (r: seq<Bytes>)
    requires Valid(a) && a.buffer.Lists? && TypeOf(a.buffer.child).Number?
    ensures |r| == a.len
  {
    var children := ListChildren(a);
    seq(a.len, i requires 0 <= i < a.len =>
      var lo, hi := Rebased(a, i), Rebased(a, i + 1);
      if IsValid(a, i) then [1] + U64(hi - lo) + NumberRun(children, lo, hi) else [0])
  }

  function EncodeLists(a: Array, encoded: seq<Bytes>): (r: seq<Bytes>)
    requires Valid(a) && a.buffer.Lists? && |encoded| == ListChildren(a).len
    ensures |r| == a.len
  {
    var children := ListChildren(a);
    seq(a.len, i requires 0 <= i < a.len =>
      var lo, hi := Rebased(a, i), Rebased(a, i + 1);
      if IsValid(a, i) then [1] + U64(hi - lo) + Flatten(encoded[lo..hi]) else [0])
  }

  /** Encodes a whole column, as the script does. */
  function EncodeColumn(a: Array): (r: seq<Bytes>)
    requires Valid(a) && Supported(TypeOf(a))
    ensures |r| == a.len
    decreases TypeOf(a)
  {
    match a.buffer
    case Coded(_, _, _) => EncodeColumn(Decode(a))
    case Nulls => seq(a.len, _ => [0])
    case Flat(_, _, _) => EncodeFlat(a)
    case VarBytes(_, _, _) => EncodeVarBytes(a)
    case FixedLists(_, _, child) =>
      if TypeOf(child).Number? then EncodeFixedNumbers(a) else EncodeFixed(a, EncodeColumn(FixedChildren(a)))
    case Lists(_, _, child) =>
      if TypeOf(child).Number? then EncodeListNumbers(a) else EncodeLists(a, EncodeColumn(ListChildren(a)))
  }

  // ---------- the columnar encoder refines the reference ----------

  /** Encoded column `bytes` agrees with the reference encoding of the rows vs, one by one. */
  ghost predicate Agrees(t: Type, bytes: seq<Bytes>, vs: seq<Value>)
    requires Supported(t)
  {
    |bytes| == |vs| && AllHaveType(vs, t) &&
    forall i :: 0 <= i < |vs| ==> HasType(vs[i], t) && bytes[i] == EncodeValue(t, vs[i])
  }

  lemma {:induction false} EachRefines(t: Type, bytes: seq<Bytes>, vs: seq<Value>)
    requires Supported(t) && Agrees(t, bytes, vs)
    ensures Flatten(bytes) == EncodeEach(t, vs)
  {
    if vs != [] {
      EachRefines(t, bytes[1..], vs[1..]);
    }
  }

  lemma NumberRunRefines(children: Array, lo: nat, hi: nat)
    requires Valid(children) && TypeOf(children).Number? && lo <= hi <= children.len
    ensures AllHaveType(Rows(children)[lo..hi], TypeOf(children))
    ensures NumberRun(children, lo, hi) == EncodeItems(TypeOf(children), Rows(children)[lo..hi])
  {
    var w, vs := CellWidth(TypeOf(children)), Rows(children)[lo..hi];
    RowsHaveType(children);
    assert children.buffer.Flat?;
    NumberRunCells(children, lo, hi);
    FlattenUniformSlice(FilledColumn(children), w, lo, hi);
  }

  /** The run's cells and its validity, before they are flattened. */
  lemma NumberRunCells(children: Array, lo: nat, hi: nat)
    requires Valid(children) && TypeOf(children).Number? && lo <= hi <= children.len
    ensures var w, vs := CellWidth(TypeOf(children)), Rows(children)[lo..hi];
      && AllHaveType(vs, TypeOf(children)) && children.buffer.Flat?
      && FilledColumn(children)[lo..hi] == FilledCells(vs, w)
      && ValidityBytes(ValidColumn(children))[lo..hi] == ValidityBytes(Mask(vs))
  {
    var w, vs := CellWidth(TypeOf(children)), Rows(children)[lo..hi];
    RowsHaveType(children);
    forall k | 0 <= k < hi - lo
      ensures FilledColumn(children)[lo + k] == FilledCells(vs, w)[k]
      ensures ValidColumn(children)[lo + k] == Mask(vs)[k]
    {
      assert vs[k] == Logical(children, lo + k);
    }
  }

  lemma FixedRefines(a: Array, i: nat)
    requires Valid(a) && a.buffer.FixedLists? && i < a.len && IsValid(a, i)
    ensures i * a.buffer.size <= (i + 1) * a.buffer.size <= FixedChildren(a).len
    ensures Logical(a, i) == Items(Rows(FixedChildren(a))[i * a.buffer.size..(i + 1) * a.buffer.size])
  {
    var n, children := a.buffer.size, FixedChildren(a);
    MulMono(i + 1, a.len, n);
    MulMono(i, i + 1, n);
    SliceRows(children, i * n, n);
    MulMono(a.offset, a.offset + i, n);
    assert (a.offset + i) * n == a.offset * n + i * n;
  }

  lemma ListRefines(a: Array, i: nat)
    requires Valid(a) && a.buffer.Lists? && i < a.len && IsValid(a, i)
    ensures 0 <= Rebased(a, i) <= Rebased(a, i + 1) <= ListChildren(a).len
    ensures Logical(a, i) == Items(Rows(ListChildren(a))[Rebased(a, i)..Rebased(a, i + 1)])
  {
    SliceRows(ListChildren(a), Rebased(a, i), Rebased(a, i + 1) - Rebased(a, i));
    hide Rows, Supported;
  }

  /** Row i of an encoded column is the reference encoding of the row's logical value. */
  ghost predicate RowAgrees(a: Array, bytes: seq<Bytes>, i: nat)
    requires Valid(a) && Supported(TypeOf(a)) && i < a.len == |bytes|
  {
    HasType(Logical(a, i), TypeOf(a)) && bytes[i] == EncodeValue(TypeOf(a), Logical(a, i))
  }

  lemma FlatRow(a: Array, i: nat)
    requires Valid(a) && a.buffer.Flat? && i < a.len
    ensures RowAgrees(a, EncodeFlat(a), i)
  {
    LogicalHasType(a, i);
    FlatEntry(a, i);
    hide EncodeFlat, FilledColumn, Flatten;
  }

  /** The stretch of the filled column that belongs to one row. */
  lemma FlatEntry(a: Array, i: nat)
    requires Valid(a) && a.buffer.Flat? && i < a.len
    ensures EncodeFlat(a)[i] == if IsValid(a, i) then [1] + a.buffer.cells[a.offset + i] else [0]
  {
    var w, cells := CellWidth(TypeOf(a)), FilledColumn(a);
    FlattenUniformSlice(cells, w, i, i + 1);
    OneCell(cells, i);
    hide Valid, TypeOf, CellWidth, Flatten, Uniform;
  }

  lemma OneCell(cells: seq<Bytes>, i: nat)
    requires i < |cells|
    ensures Flatten(cells[i..i + 1]) == cells[i]
  {
    assert cells[i..i + 1] == [cells[i]];
    FlattenSingle(cells[i]);
  }

  lemma VarBytesRow(a: Array, i: nat)
    requires Valid(a) && a.buffer.VarBytes? && i < a.len
    ensures RowAgrees(a, EncodeVarBytes(a), i)
  {
    LogicalHasType(a, i);
  }

  lemma AgreesSlice(t: Type, bytes: seq<Bytes>, vs: seq<Value>, lo: nat, hi: nat)
    requires Supported(t) && Agrees(t, bytes, vs) && lo <= hi <= |vs|
    ensures Agrees(t, bytes[lo..hi], vs[lo..hi])
  {
    forall k | 0 <= k < hi - lo
      ensures HasType(vs[lo..hi][k], t) && bytes[lo..hi][k] == EncodeValue(t, vs[lo..hi][k])
    {
      assert HasType(vs[lo + k], t) && bytes[lo + k] == EncodeValue(t, vs[lo + k]);
    }
    hide EncodeValue, HasType, Supported;
  }

  /** The reference encoding of a list value, one level unfolded. */
  lemma ItemsValue(t: Type, xs: seq<Value>)
    requires Supported(t) && (t.List? || t.FixedList?) && HasType(Items(xs), t)
    ensures AllHaveType(xs, t.child) && (t.List? ==> |xs| < TWO_64)
    ensures EncodeValue(t, Items(xs)) == [1] + (if t.List? then U64(|xs|) else []) + EncodeItems(t.child, xs)
    ensures !t.child.Number? ==> EncodeItems(t.child, xs) == EncodeEach(t.child, xs)
  {
  }

  lemma MissingValue(t: Type)
    requires Supported(t) && !t.Dictionary?
    ensures HasType(Missing, t) && EncodeValue(t, Missing) == [0]
  {
    MissingHasType(t);
  }

  lemma EncodeFixedAt(a: Array, encoded: seq<Bytes>, i: nat, lo: nat, hi: nat)
    requires Valid(a) && a.buffer.FixedLists? && |encoded| == a.len * a.buffer.size && i < a.len
    requires lo == i * a.buffer.size && hi == (i + 1) * a.buffer.size
    ensures lo <= hi <= |encoded|
    ensures EncodeFixed(a, encoded)[i] == if IsValid(a, i) then [1] + Flatten(encoded[lo..hi]) else [0]
  {
    MulMono(i + 1, a.len, a.buffer.size);
    MulMono(i, i + 1, a.buffer.size);
  }

  lemma FixedRow(a: Array, encoded: seq<Bytes>, i: nat)
    requires Valid(a) && a.buffer.FixedLists? && Supported(TypeOf(a)) && !TypeOf(a.buffer.child).Number?
    requires Agrees(TypeOf(a.buffer.child), encoded, Rows(FixedChildren(a)))
    requires i < a.len
    ensures RowAgrees(a, EncodeFixed(a, encoded), i)
  {
    hide EncodeFixed, EncodeValue, EncodeEach;
    var t, lo, hi := TypeOf(a.buffer.child), i * a.buffer.size, (i + 1) * a.buffer.size;
    LogicalHasType(a, i);
    IsValidLogical(a, i);
    EncodeFixedAt(a, encoded, i, lo, hi);
    if IsValid(a, i) {
      FixedRefines(a, i);
      AgreesSlice(t, encoded, Rows(FixedChildren(a)), lo, hi);
      EachRefines(t, encoded[lo..hi], Rows(FixedChildren(a))[lo..hi]);
      ItemsValue(TypeOf(a), Rows(FixedChildren(a))[lo..hi]);
    } else {
      MissingValue(TypeOf(a));
    }
  }

  lemma EncodeFixedNumbersAt(a: Array, i: nat, lo: nat, hi: nat)
    requires Valid(a) && a.buffer.FixedLists? && TypeOf(a.buffer.child).Number? && i < a.len
    requires lo == i * a.buffer.size && hi == (i + 1) * a.buffer.size
    ensures lo <= hi <= FixedChildren(a).len
    ensures EncodeFixedNumbers(a)[i] == if IsValid(a, i) then [1] + NumberRun(FixedChildren(a), lo, hi) else [0]
  {
    MulMono(i + 1, a.len, a.buffer.size);
    MulMono(i, i + 1, a.buffer.size);
    hide NumberRun;
  }

  lemma FixedNumbersRow(a: Array, i: nat)
    requires Valid(a) && a.buffer.FixedLists? && TypeOf(a.buffer.child).Number? && i < a.len
    ensures RowAgrees(a, EncodeFixedNumbers(a), i)
  {
    hide EncodeFixedNumbers, EncodeValue, EncodeItems, NumberRun;
    var lo, hi := i * a.buffer.size, (i + 1) * a.buffer.size;
    LogicalHasType(a, i);
    IsValidLogical(a, i);
    EncodeFixedNumbersAt(a, i, lo, hi);
    if IsValid(a, i) {
      FixedRefines(a, i);
      NumberRunRefines(FixedChildren(a), lo, hi);
      ItemsValue(TypeOf(a), Rows(FixedChildren(a))[lo..hi]);
    } else {
      MissingValue(TypeOf(a));
    }
  }

  lemma EncodeListsAt(a: Array, encoded: seq<Bytes>, i: nat)
    requires Valid(a) && a.buffer.Lists? && |encoded| == ListChildren(a).len && i < a.len
    ensures EncodeLists(a, encoded)[i] ==
      if IsValid(a, i) then [1] + U64(Rebased(a, i + 1) - Rebased(a, i))
        + Flatten(encoded[Rebased(a, i)..Rebased(a, i + 1)])
      else [0]
  {
    hide ListChildren, U64;
  }

  lemma ListRow(a: Array, encoded: seq<Bytes>, i: nat)
    requires Valid(a) && a.buffer.Lists? && Supported(TypeOf(a)) && !TypeOf(a.buffer.child).Number?
    requires Agrees(TypeOf(a.buffer.child), encoded, Rows(ListChildren(a)))
    requires i < a.len
    ensures RowAgrees(a, EncodeLists(a, encoded), i)
  {
    hide EncodeLists, EncodeValue, EncodeEach, U64, ListChildren;
    LogicalHasType(a, i);
    IsValidLogical(a, i);
    EncodeListsAt(a, encoded, i);
    if IsValid(a, i) {
      ListRefines(a, i);
      var t, lo, hi := TypeOf(a.buffer.child), Rebased(a, i), Rebased(a, i + 1);
      AgreesSlice(t, encoded, Rows(ListChildren(a)), lo, hi);
      EachRefines(t, encoded[lo..hi], Rows(ListChildren(a))[lo..hi]);
      ItemsValue(TypeOf(a), Rows(ListChildren(a))[lo..hi]);
    } else {
      MissingValue(TypeOf(a));
    }
  }

  lemma EncodeListNumbersAt(a: Array, i: nat)
    requires Valid(a) && a.buffer.Lists? && TypeOf(a.buffer.child).Number? && i < a.len
    ensures EncodeListNumbers(a)[i] ==
      if IsValid(a, i) then
        [1] + U64(Rebased(a, i + 1) - Rebased(a, i)) + NumberRun(ListChildren(a), Rebased(a, i), Rebased(a, i + 1))
      else [0]
  {
    hide ListChildren, U64, NumberRun;
  }

  lemma ListNumbersRow(a: Array, i: nat)
    requires Valid(a) && a.buffer.Lists? && TypeOf(a.buffer.child).Number? && i < a.len
    ensures RowAgrees(a, EncodeListNumbers(a), i)
  {
    hide EncodeListNumbers, EncodeValue, EncodeItems, U64, ListChildren, NumberRun;
    LogicalHasType(a, i);
    IsValidLogical(a, i);
    EncodeListNumbersAt(a, i);
    if IsValid(a, i) {
      ListRefines(a, i);
      NumberRunRefines(ListChildren(a), Rebased(a, i), Rebased(a, i + 1));
      ItemsValue(TypeOf(a), Rows(ListChildren(a))[Rebased(a, i)..Rebased(a, i + 1)]);
    } else {
      MissingValue(TypeOf(a));
    }
  }

  lemma AgreesByRow(a: Array, bytes: seq<Bytes>)
    requires Valid(a) && Supported(TypeOf(a)) && |bytes| == a.len
    requires forall i :: 0 <= i < a.len ==> RowAgrees(a, bytes, i)
    ensures Agrees(TypeOf(a), bytes, Rows(a))
  {
    RowsHaveType(a);
    forall i | 0 <= i < a.len
      ensures HasType(Rows(a)[i], TypeOf(a)) && bytes[i] == EncodeValue(TypeOf(a), Rows(a)[i])
    {
      assert RowAgrees(a, bytes, i);
    }
  }

  /** Whatever slice of whatever buffers a column is, its encoding is the reference encoding of its
      logical rows: nothing hidden under a null, before the slice or behind it reaches the bytes. */
  lemma {:induction false} EncodeColumnRefines(a: Array)
    requires Valid(a) && Supported(TypeOf(a))
    ensures Agrees(TypeOf(a), EncodeColumn(a), Rows(a))
    decreases TypeOf(a)
  {
    match a.buffer
    case Nulls => AgreesByRow(a, EncodeColumn(a));
    case Flat(_, _, _) =>
      forall i | 0 <= i < a.len { FlatRow(a, i); }
      AgreesByRow(a, EncodeFlat(a));
    case VarBytes(_, _, _) =>
      forall i | 0 <= i < a.len { VarBytesRow(a, i); }
      AgreesByRow(a, EncodeVarBytes(a));
    case Coded(_, _, _) =>
      EncodeColumnRefines(Decode(a));
      RowsHaveType(a);
      forall i | 0 <= i < a.len
        ensures HasType(Rows(a)[i], TypeOf(a)) && EncodeColumn(a)[i] == EncodeValue(TypeOf(a), Rows(a)[i])
      {
        assert Rows(Decode(a))[i] == Rows(a)[i];
      }
    case FixedLists(_, _, child) =>
      if TypeOf(child).Number? {
        forall i | 0 <= i < a.len { FixedNumbersRow(a, i); }
        AgreesByRow(a, EncodeFixedNumbers(a));
      } else {
        var encoded := EncodeColumn(FixedChildren(a));
        EncodeColumnRefines(FixedChildren(a));
        forall i | 0 <= i < a.len { FixedRow(a, encoded, i); }
        AgreesByRow(a, EncodeFixed(a, encoded));
      }
    case Lists(_, _, child) =>
      if TypeOf(child).Number? {
        forall i | 0 <= i < a.len { ListNumbersRow(a, i); }
        AgreesByRow(a, EncodeListNumbers(a));
      } else {
        var encoded := EncodeColumn(ListChildren(a));
        EncodeColumnRefines(ListChildren(a));
        forall i | 0 <= i < a.len { ListRow(a, encoded, i); }
        AgreesByRow(a, EncodeLists(a, encoded));
      }
  }
}
