/** Columnar arrays as the recovery script sees them: shared buffers, a slice window, and the
    logical values that window stands for. */
module Arrow {
  import opened Basics
  import opened ByteStrings

  /** Column types. Number covers every integer and floating width; Binary covers the string and
      binary families; Other is any type neither scan supports. */
  datatype Type =
    | Null
    | Bool
    | Number(width: nat)
    | Binary
    | FixedList(size: nat, child: Type)
    | List(child: Type)
    | Dictionary(values: Type)
    | Other

  /** A logical field: what survives once buffers, offsets and hidden values are forgotten. */
  datatype Value =
    | Missing
    | Cell(bytes: Bytes)
    | Text(bytes: Bytes)
    | Items(items: seq<Value>)

  /** Whether both scans know the type. The value type of a dictionary is not itself a dictionary:
      decoding happens once, and what it leaves must be a supported kind. */
  predicate Supported(t: Type) {
    match t
    case FixedList(_, c) => Supported(c)
    case List(c) => Supported(c)
    case Dictionary(c) => !c.Dictionary? && Supported(c)
    case Other => false
    case _ => true
  }

  ghost predicate HasType(v: Value, t: Type)
    decreases t, v
  {
    match t
    case Null => v.Missing?
    case Bool => v.Missing? || (v.Cell? && |v.bytes| == 1)
    case Number(w) => v.Missing? || (v.Cell? && |v.bytes| == w)
    case Binary => v.Missing? || (v.Text? && |v.bytes| < TWO_64)
    case FixedList(n, c) => v.Missing? || (v.Items? && |v.items| == n && AllHaveType(v.items, c))
    case List(c) => v.Missing? || (v.Items? && |v.items| < TWO_64 && AllHaveType(v.items, c))
    case Dictionary(c) => HasType(v, c)
    case Other => v.Missing?
  }

  ghost predicate AllHaveType(vs: seq<Value>, t: Type)
    decreases t, vs
  {
    forall i :: 0 <= i < |vs| ==> HasType(vs[i], t)
  }

  // ---------- physical arrays ----------

  /** A window of len elements, starting at offset, over shared buffers. */
  datatype Array = Array(buffer: Buffer, offset: nat, len: nat)

  /** Buffers. `valid` is the validity map; entries under a false bit are unspecified. */
  datatype Buffer =
    | Nulls
    | Flat(kind: Type, valid: seq<bool>, cells: seq<Bytes>)
    | VarBytes(valid: seq<bool>, offsets: seq<nat>, data: Bytes)
    | FixedLists(size: nat, valid: seq<bool>, child: Array)
    | Lists(valid: seq<bool>, offsets: seq<nat>, child: Array)
    | Coded(valid: seq<bool>, codes: seq<nat>, dictionary: Array)
    | Foreign

  function TypeOf(a: Array): Type
    decreases a
  {
    match a.buffer
    case Nulls => Null
    case Flat(k, _, _) => k
    case VarBytes(_, _, _) => Binary
    case FixedLists(n, _, c) => FixedList(n, TypeOf(c))
    case Lists(_, _, c) => List(TypeOf(c))
    case Coded(_, _, d) => Dictionary(TypeOf(d))
    case Foreign => Other
  }

  function CellWidth(t: Type): nat {
    if t.Number? then t.width else 1
  }

  /** Offsets of a window ascend inside the data, and no single element outgrows a 64-bit length. */
  ghost predicate Monotone(offsets: seq<nat>, lo: nat, hi: nat, bound: nat)
    requires lo <= hi < |offsets|
  {
    && (forall i, j :: lo <= i <= j <= hi ==> offsets[i] <= offsets[j])
    && (forall i :: lo <= i < hi ==> offsets[i + 1] < offsets[i] + TWO_64)
    && offsets[hi] <= bound
  }

  /** The window lies inside its buffers, as every array the engine hands out does. */
  ghost predicate Valid(a: Array)
    decreases a
  {
    var end := a.offset + a.len;
    match a.buffer
    case Nulls => true
    case Flat(k, valid, cells) =>
      (k.Bool? || k.Number?) && end <= |valid| && end <= |cells| && Uniform(cells, CellWidth(k))
    case VarBytes(valid, offsets, data) =>
      end <= |valid| && end < |offsets| && Monotone(offsets, a.offset, end, |data|)
    case FixedLists(n, valid, child) =>
      end <= |valid| && end * n <= child.len && Valid(child)
    case Lists(valid, offsets, child) =>
      end <= |valid| && end < |offsets| && Monotone(offsets, a.offset, end, child.len) && Valid(child)
    case Coded(valid, codes, dictionary) =>
      end <= |valid| && end <= |codes| && Valid(dictionary) &&
      forall i :: a.offset <= i < end && valid[i] ==> codes[i] < dictionary.len
    case Foreign => true
  }

  /** `array.slice(lo, n)`: same buffers, narrower window. */
  function Slice(a: Array, lo: nat, n: nat): (r: Array)
    requires lo + n <= a.len
    ensures TypeOf(r) == TypeOf(a) && r.len == n
  {
    Array(a.buffer, a.offset + lo, n)
  }

  lemma SliceValid(a: Array, lo: nat, n: nat)
    requires Valid(a) && lo + n <= a.len
    ensures Valid(Slice(a, lo, n))
  {
    if a.buffer.FixedLists? {
      MulMono(a.offset + lo + n, a.offset + a.len, a.buffer.size);
    }
  }

  function IsValid(a: Array, i: nat): bool
    requires Valid(a) && i < a.len
  {
    match a.buffer
    case Nulls => false
    case Flat(_, valid, _) => valid[a.offset + i]
    case VarBytes(valid, _, _) => valid[a.offset + i]
    case FixedLists(_, valid, _) => valid[a.offset + i]
    case Lists(valid, _, _) => valid[a.offset + i]
    case Coded(valid, codes, dictionary) =>
      valid[a.offset + i] && IsValid(dictionary, codes[a.offset + i])
    case Foreign => false
  }

  /** The logical value of one element. Nothing stored under a cleared validity bit is read. */
  function Logical(a: Array, i: nat): Value
    requires Valid(a) && i < a.len
    decreases a.buffer, 0
  {
    var j := a.offset + i;
    match a.buffer
    case Nulls => Missing
    case Flat(_, valid, cells) => if valid[j] then Cell(cells[j]) else Missing
    case VarBytes(valid, offsets, data) =>
      if valid[j] then Text(data[offsets[j]..offsets[j + 1]]) else Missing
    case FixedLists(n, valid, child) =>
      if !valid[j] then Missing else
        MulMono(j + 1, a.offset + a.len, n);
        SliceValid(child, j * n, n);
        Items(Rows(Slice(child, j * n, n)))
    case Lists(valid, offsets, child) =>
      if !valid[j] then Missing else
        SliceValid(child, offsets[j], offsets[j + 1] - offsets[j]);
        Items(Rows(Slice(child, offsets[j], offsets[j + 1] - offsets[j])))
    case Coded(valid, codes, dictionary) =>
      if valid[j] then Logical(dictionary, codes[j]) else Missing
    case Foreign => Missing
  }

  function Rows(a: Array): (r: seq<Value>)
    requires Valid(a)
    ensures |r| == a.len
    decreases a.buffer, 1
  {
    seq(a.len, i requires 0 <= i < a.len => Logical(a, i))
  }

  lemma SliceRows(a: Array, lo: nat, n: nat)
    requires Valid(a) && lo + n <= a.len
    ensures Valid(Slice(a, lo, n)) && Rows(Slice(a, lo, n)) == Rows(a)[lo..lo + n]
  {
    SliceValid(a, lo, n);
    forall i | 0 <= i < n
      ensures Logical(Slice(a, lo, n), i) == Logical(a, lo + i)
    {
      SliceLogical(a, lo, n, i);
    }
    hide Valid, Logical;
  }

  lemma SliceLogical(a: Array, lo: nat, n: nat, i: nat)
    requires Valid(a) && lo + n <= a.len && Valid(Slice(a, lo, n)) && i < n
    ensures Logical(Slice(a, lo, n), i) == Logical(a, lo + i)
  {
    assert Slice(a, lo, n).offset + i == a.offset + (lo + i);
    hide Rows;
  }

  /** A list row is the run of child rows between its offsets. */
  lemma ListLogical(a: Array, i: nat)
    requires Valid(a) && a.buffer.Lists? && i < a.len && a.buffer.valid[a.offset + i]
    ensures var j := a.offset + i;
      a.buffer.offsets[j] <= a.buffer.offsets[j + 1] <= a.buffer.child.len &&
      Logical(a, i) == Items(Rows(a.buffer.child)[a.buffer.offsets[j]..a.buffer.offsets[j + 1]])
  {
    var j, child := a.offset + i, a.buffer.child;
    SliceRows(child, a.buffer.offsets[j], a.buffer.offsets[j + 1] - a.buffer.offsets[j]);
    hide Rows;
  }

  lemma {:induction false} IsValidLogical(a: Array, i: nat)
    requires Valid(a) && i < a.len
    ensures IsValid(a, i) <==> !Logical(a, i).Missing?
    decreases a
  {
    if a.buffer.Coded? && a.buffer.valid[a.offset + i] {
      IsValidLogical(a.buffer.dictionary, a.buffer.codes[a.offset + i]);
    }
  }

  lemma {:induction false} MissingHasType(t: Type)
    ensures HasType(Missing, t)
  {
    if t.Dictionary? { MissingHasType(t.values); }
  }

  lemma {:induction false} LogicalHasType(a: Array, i: nat)
    requires Valid(a) && i < a.len
    ensures HasType(Logical(a, i), TypeOf(a))
    decreases a.buffer, 0
  {
    var j := a.offset + i;
    match a.buffer
    case FixedLists(n, valid, child) =>
      if valid[j] {
        MulMono(j + 1, a.offset + a.len, n);
        SliceValid(child, j * n, n);
        var part := Slice(child, j * n, n);
        RowsHaveType(part);
        assert Logical(a, i) == Items(Rows(part));
      } else {
        assert Logical(a, i) == Missing;
      }
    case Lists(valid, offsets, child) =>
      if valid[j] {
        SliceValid(child, offsets[j], offsets[j + 1] - offsets[j]);
        var part := Slice(child, offsets[j], offsets[j + 1] - offsets[j]);
        RowsHaveType(part);
        assert Logical(a, i) == Items(Rows(part));
      } else {
        assert Logical(a, i) == Missing;
      }
    case Coded(valid, codes, dictionary) =>
      if valid[j] { LogicalHasType(dictionary, codes[j]); } else { MissingHasType(TypeOf(dictionary)); }
    case _ =>
  }

  lemma {:induction false} RowsHaveType(a: Array)
    requires Valid(a)
    ensures AllHaveType(Rows(a), TypeOf(a))
    decreases a.buffer, 1
  {
    forall i | 0 <= i < a.len
      ensures HasType(Rows(a)[i], TypeOf(a))
    {
      LogicalHasType(a, i);
    }
  }

  // ---------- arrays the engine's kernels build ----------

  function Mask(vs: seq<Value>): (r: seq<bool>)
    ensures |r| == |vs|
  {
    seq(|vs|, i requires 0 <= i < |vs| => !vs[i].Missing?)
  }

  function ZeroCell(width: nat): (r: Bytes)
    ensures |r| == width && forall i :: 0 <= i < width ==> r[i] == 0
  {
    seq(width, _ => 0)
  }

  /** The bytes of a number or boolean with nulls filled by zero. */
  function FilledCells(vs: seq<Value>, width: nat): (r: seq<Bytes>)
    ensures |r| == |vs|
  {
    seq(|vs|, i requires 0 <= i < |vs| => if vs[i].Cell? then vs[i].bytes else ZeroCell(width))
  }

  /** The bytes of each string with nulls filled by the empty string. */
  function FilledTexts(vs: seq<Value>): (r: seq<Bytes>)
    ensures |r| == |vs|
  {
    seq(|vs|, i requires 0 <= i < |vs| => if vs[i].Text? then vs[i].bytes else [])
  }

  /** The children of each list with nulls filled by the empty list. */
  function FilledItems(vs: seq<Value>): (r: seq<seq<Value>>)
    ensures |r| == |vs|
  {
    seq(|vs|, i requires 0 <= i < |vs| => if vs[i].Items? then vs[i].items else [])
  }

  /** The children of each fixed-size list; a null still occupies `size` physical slots. */
  function PaddedItems(vs: seq<Value>, size: nat): (r: seq<seq<Value>>)
    ensures |r| == |vs|
  {
    seq(|vs|, i requires 0 <= i < |vs| => if vs[i].Items? then vs[i].items else seq(size, _ => Missing))
  }

  function Starts<T>(pieces: seq<seq<T>>): (r: seq<nat>)
    ensures |r| == |pieces| + 1
  {
    seq(|pieces| + 1, i requires 0 <= i <= |pieces| => Start(pieces, i))
  }

  /** A freshly built array for the given logical rows: what a kernel that cannot reuse its input returns. */
  function FromRows(t: Type, vs: seq<Value>): (r: Array)
    ensures TypeOf(r) == t && r.len == |vs| && r.offset == 0
    decreases t
  {
    match t
    case Null => Array(Nulls, 0, |vs|)
    case Other => Array(Foreign, 0, |vs|)
    case Bool => Array(Flat(t, Mask(vs), FilledCells(vs, 1)), 0, |vs|)
    case Number(w) => Array(Flat(t, Mask(vs), FilledCells(vs, w)), 0, |vs|)
    case Binary =>
      var texts := FilledTexts(vs);
      Array(VarBytes(Mask(vs), Starts(texts), Flatten(texts)), 0, |vs|)
    case FixedList(n, c) =>
      Array(FixedLists(n, Mask(vs), FromRows(c, Flatten(PaddedItems(vs, n)))), 0, |vs|)
    case List(c) =>
      var items := FilledItems(vs);
      Array(Lists(Mask(vs), Starts(items), FromRows(c, Flatten(items))), 0, |vs|)
    case Dictionary(c) =>
      Array(Coded(Mask(vs), seq(|vs|, i => i), FromRows(c, vs)), 0, |vs|)
  }

  lemma StartsMonotone<T>(pieces: seq<seq<T>>)
    requires forall i :: 0 <= i < |pieces| ==> |pieces[i]| < TWO_64
    ensures Monotone(Starts(pieces), 0, |pieces|, |Flatten(pieces)|)
  {
    var s := Starts(pieces);
    forall i, j | 0 <= i <= j <= |pieces|
      ensures s[i] <= s[j]
    {
      FlattenSlice(pieces, i, j);
    }
    forall i | 0 <= i < |pieces|
      ensures s[i + 1] < s[i] + TWO_64
    {
      FlattenPiece(pieces, i);
    }
    assert pieces[..|pieces|] == pieces;
  }

  lemma {:induction false} FlattenTyped(pieces: seq<seq<Value>>, t: Type)
    requires forall i :: 0 <= i < |pieces| ==> AllHaveType(pieces[i], t)
    ensures AllHaveType(Flatten(pieces), t)
  {
    if pieces != [] { FlattenTyped(pieces[1..], t); }
  }

  lemma FilledItemsTyped(vs: seq<Value>, t: Type)
    requires t.List? || t.FixedList?
    requires AllHaveType(vs, t)
    ensures AllHaveType(Flatten(FilledItems(vs)), t.child)
    ensures t.List? ==> forall i :: 0 <= i < |vs| ==> |FilledItems(vs)[i]| < TWO_64
    ensures t.FixedList? ==>
      AllHaveType(Flatten(PaddedItems(vs, t.size)), t.child) && Uniform(PaddedItems(vs, t.size), t.size)
  {
    forall i | 0 <= i < |vs|
      ensures AllHaveType(FilledItems(vs)[i], t.child)
      ensures t.List? ==> |FilledItems(vs)[i]| < TWO_64
      ensures t.FixedList? ==>
        AllHaveType(PaddedItems(vs, t.size)[i], t.child) && |PaddedItems(vs, t.size)[i]| == t.size
    {
      assert HasType(vs[i], t);
      MissingHasType(t.child);
    }
    FlattenTyped(FilledItems(vs), t.child);
    if t.FixedList? { FlattenTyped(PaddedItems(vs, t.size), t.child); }
  }

  lemma FromTexts(vs: seq<Value>)
    requires AllHaveType(vs, Binary)
    ensures Valid(FromRows(Binary, vs)) && Rows(FromRows(Binary, vs)) == vs
  {
    var a, texts := FromRows(Binary, vs), FilledTexts(vs);
    assert forall i :: 0 <= i < |vs| ==> HasType(vs[i], Binary);
    StartsMonotone(texts);
    forall i | 0 <= i < |vs|
      ensures Logical(a, i) == vs[i]
    {
      FlattenPiece(texts, i);
    }
  }

  lemma FromCells(t: Type, vs: seq<Value>)
    requires t.Bool? || t.Number?
    requires AllHaveType(vs, t)
    ensures Valid(FromRows(t, vs)) && Rows(FromRows(t, vs)) == vs
  {
    assert forall i :: 0 <= i < |vs| ==> HasType(vs[i], t);
  }

  lemma FromFixedLists(n: nat, c: Type, vs: seq<Value>)
    requires AllHaveType(vs, FixedList(n, c))
    requires var child := FromRows(c, Flatten(PaddedItems(vs, n)));
      Valid(child) && Rows(child) == Flatten(PaddedItems(vs, n))
    ensures Valid(FromRows(FixedList(n, c), vs)) && Rows(FromRows(FixedList(n, c), vs)) == vs
  {
    var a, items := FromRows(FixedList(n, c), vs), PaddedItems(vs, n);
    FilledItemsTyped(vs, FixedList(n, c));
    FlattenUniformLength(items, n);
    assert Valid(a);
    forall i | 0 <= i < |vs|
      ensures Logical(a, i) == vs[i]
    {
      FromFixedListsAt(n, c, vs, i);
    }
    hide Valid, Logical, HasType;
  }

  /** A fixed-size list row is its stretch of child rows. */
  lemma FixedLogical(a: Array, i: nat)
    requires Valid(a) && a.buffer.FixedLists? && i < a.len && a.buffer.valid[a.offset + i]
    ensures var lo, hi := (a.offset + i) * a.buffer.size, (a.offset + i + 1) * a.buffer.size;
      lo <= hi <= a.buffer.child.len && Logical(a, i) == Items(Rows(a.buffer.child)[lo..hi])
  {
    MulMono(a.offset + i, a.offset + i + 1, a.buffer.size);
    MulMono(a.offset + i + 1, a.offset + a.len, a.buffer.size);
    SliceRows(a.buffer.child, (a.offset + i) * a.buffer.size, a.buffer.size);
    hide Rows;
  }

  lemma FixedMissing(a: Array, i: nat)
    requires Valid(a) && a.buffer.FixedLists? && i < a.len && !a.buffer.valid[a.offset + i]
    ensures Logical(a, i) == Missing
  {
    hide Rows;
  }

  lemma UniformPiece<T>(items: seq<seq<T>>, n: nat, i: nat)
    requires Uniform(items, n) && i < |items|
    ensures i * n <= (i + 1) * n <= |Flatten(items)| && Flatten(items)[i * n..(i + 1) * n] == items[i]
  {
    FlattenUniformSlice(items, n, i, i + 1);
    assert items[i..i + 1] == [items[i]];
    FlattenSingle(items[i]);
  }

  lemma FromFixedListsAt(n: nat, c: Type, vs: seq<Value>, i: nat)
    requires i < |vs| && HasType(vs[i], FixedList(n, c)) && Valid(FromRows(FixedList(n, c), vs))
    requires Uniform(PaddedItems(vs, n), n) && Valid(FromRows(c, Flatten(PaddedItems(vs, n))))
    requires Rows(FromRows(c, Flatten(PaddedItems(vs, n)))) == Flatten(PaddedItems(vs, n))
    ensures Logical(FromRows(FixedList(n, c), vs), i) == vs[i]
  {
    var a, items := FromRows(FixedList(n, c), vs), PaddedItems(vs, n);
    UniformPiece(items, n, i);
    assert a.buffer == FixedLists(n, Mask(vs), FromRows(c, Flatten(items)));
    if a.buffer.valid[i] {
      FixedLogical(a, i);
    } else {
      FixedMissing(a, i);
    }
    hide Rows, Valid, FromRows, Flatten, Logical;
  }

  lemma FromLists(c: Type, vs: seq<Value>)
    requires AllHaveType(vs, List(c))
    requires var child := FromRows(c, Flatten(FilledItems(vs)));
      Valid(child) && Rows(child) == Flatten(FilledItems(vs))
    ensures Valid(FromRows(List(c), vs)) && Rows(FromRows(List(c), vs)) == vs
  {
    var a, items := FromRows(List(c), vs), FilledItems(vs);
    FilledItemsTyped(vs, List(c));
    StartsMonotone(items);
    assert Valid(a);
    forall i | 0 <= i < |vs|
      ensures Logical(a, i) == vs[i]
    {
      FromListsAt(c, vs, i);
    }
    hide Valid, Logical, HasType;
  }

  lemma FromListsAt(c: Type, vs: seq<Value>, i: nat)
    requires i < |vs| && HasType(vs[i], List(c)) && Valid(FromRows(List(c), vs))
      && Valid(FromRows(c, Flatten(FilledItems(vs))))
    requires Rows(FromRows(c, Flatten(FilledItems(vs)))) == Flatten(FilledItems(vs))
    ensures Logical(FromRows(List(c), vs), i) == vs[i]
  {
    var a, items := FromRows(List(c), vs), FilledItems(vs);
    FlattenPiece(items, i);
    assert a.buffer == Lists(Mask(vs), Starts(items), FromRows(c, Flatten(items)));
    if a.buffer.valid[i] {
      ListLogical(a, i);
    } else {
      ListMissing(a, i);
    }
    hide Rows, Valid, FromRows, Flatten, Logical, Start;
  }

  lemma ListMissing(a: Array, i: nat)
    requires Valid(a) && a.buffer.Lists? && i < a.len && !a.buffer.valid[a.offset + i]
    ensures Logical(a, i) == Missing
  {
    hide Rows;
  }

  lemma FromDictionary(c: Type, vs: seq<Value>)
    requires AllHaveType(vs, Dictionary(c))
    requires Valid(FromRows(c, vs)) && Rows(FromRows(c, vs)) == vs
    ensures Valid(FromRows(Dictionary(c), vs)) && Rows(FromRows(Dictionary(c), vs)) == vs
  {
    var a := FromRows(Dictionary(c), vs);
    forall i | 0 <= i < |vs|
      ensures Logical(a, i) == vs[i]
    {
      assert Rows(a.buffer.dictionary)[i] == vs[i];
    }
  }

  /** Building an array and reading it back gives the rows it was built from. */
  lemma {:induction false} FromRowsRoundTrip(t: Type, vs: seq<Value>)
    requires AllHaveType(vs, t)
    ensures Valid(FromRows(t, vs)) && Rows(FromRows(t, vs)) == vs
    decreases t
  {
    match t
    case Binary => FromTexts(vs);
    case FixedList(n, c) =>
      FilledItemsTyped(vs, t);
      FromRowsRoundTrip(c, Flatten(PaddedItems(vs, n)));
      FromFixedLists(n, c, vs);
    case List(c) =>
      FilledItemsTyped(vs, t);
      FromRowsRoundTrip(c, Flatten(FilledItems(vs)));
      FromLists(c, vs);
    case Dictionary(c) =>
      assert forall i :: 0 <= i < |vs| ==> HasType(vs[i], t);
      FromRowsRoundTrip(c, vs);
      FromDictionary(c, vs);
    case Bool => FromCells(t, vs);
    case Number(_) => FromCells(t, vs);
    case Null =>
      assert forall i :: 0 <= i < |vs| ==> HasType(vs[i], t);
    case Other =>
      assert forall i :: 0 <= i < |vs| ==> HasType(vs[i], t);
  }
}
