/** The streaming per-column fingerprint: it reads batches one by one, yet depends on nothing but the
    schema and the logical rows. */
module Fingerprint {
  import opened Basics
  import opened ByteStrings
  import opened Arrow
  import opened RowEncoding
  import opened Recovery

  datatype Leaf = Validity | Lengths | Data

  /** One channel of the fingerprint: column number, how many ':child' steps down, and which part. */
  datatype Key = Key(column: nat, depth: nat, leaf: Leaf)

  // ---------- what each channel receives, stated on logical values ----------

  /** Eight little-endian bytes per piece: its length. */
  function LengthCells<T>(pieces: seq<seq<T>>): (r: seq<Bytes>)
    ensures |r| == |pieces|
  {
    seq(|pieces|, i requires 0 <= i < |pieces| => LittleEndian(|pieces[i]|, 8))
  }

  /** The bytes a column of type t holding vs sends to one channel; None when it has no such channel. */
  function Stream(t: Type, vs: seq<Value>, depth: nat, leaf: Leaf): Option<Bytes>
    decreases t
  {
    if t.Dictionary? then Stream(t.values, vs, depth, leaf)
    else if depth > 0 then
      if t.List? || t.FixedList? then Stream(t.child, Flatten(FilledItems(vs)), depth - 1, leaf) else None
    else match leaf
      case Validity => Some(ValidityBytes(Mask(vs)))
      case Lengths =>
        if t.Binary? then Some(Flatten(LengthCells(FilledTexts(vs))))
        else if t.List? then Some(Flatten(LengthCells(FilledItems(vs))))
        else None
      case Data =>
        if t.Binary? then Some(Flatten(FilledTexts(vs)))
        else if t.Bool? || t.Number? then Some(Flatten(FilledCells(vs, CellWidth(t))))
        else None
  }

  /** What a channel holds after more bytes, if any, were sent to it. */
  function Extend(sofar: Option<Bytes>, more: Option<Bytes>): Option<Bytes> {
    match (sofar, more)
    case (_, None) => sofar
    case (None, Some(b)) => Some(b)
    case (Some(a), Some(b)) => Some(a + b)
  }

  lemma FlattenJoin<T>(xs: seq<seq<T>>, ys: seq<seq<T>>, all: seq<seq<T>>)
    requires all == xs + ys
    ensures Flatten(all) == Flatten(xs) + Flatten(ys)
  {
    FlattenAppend(xs, ys);
  }

  lemma LeafAppend(t: Type, xs: seq<Value>, ys: seq<Value>, leaf: Leaf)
    requires !t.Dictionary?
    ensures Extend(Stream(t, xs, 0, leaf), Stream(t, ys, 0, leaf)) == Stream(t, xs + ys, 0, leaf)
  {
    match leaf
    case Validity =>
      assert ValidityBytes(Mask(xs + ys)) == ValidityBytes(Mask(xs)) + ValidityBytes(Mask(ys));
    case Lengths =>
      if t.Binary? {
        FlattenJoin(LengthCells(FilledTexts(xs)), LengthCells(FilledTexts(ys)), LengthCells(FilledTexts(xs + ys)));
      } else if t.List? {
        FlattenJoin(LengthCells(FilledItems(xs)), LengthCells(FilledItems(ys)), LengthCells(FilledItems(xs + ys)));
      }
    case Data =>
      if t.Binary? {
        FlattenJoin(FilledTexts(xs), FilledTexts(ys), FilledTexts(xs + ys));
      } else if t.Bool? || t.Number? {
        FlattenJoin(FilledCells(xs, CellWidth(t)), FilledCells(ys, CellWidth(t)), FilledCells(xs + ys, CellWidth(t)));
      }
  }

  /** Sending two runs of rows one after the other is sending their concatenation. */
  lemma {:induction false} StreamAppend(t: Type, xs: seq<Value>, ys: seq<Value>, depth: nat, leaf: Leaf)
    ensures Extend(Stream(t, xs, depth, leaf), Stream(t, ys, depth, leaf)) == Stream(t, xs + ys, depth, leaf)
    decreases t
  {
    if t.Dictionary? {
      StreamAppend(t.values, xs, ys, depth, leaf);
    } else if depth > 0 {
      if t.List? || t.FixedList? {
        FlattenJoin(FilledItems(xs), FilledItems(ys), FilledItems(xs + ys));
        StreamAppend(t.child, Flatten(FilledItems(xs)), Flatten(FilledItems(ys)), depth - 1, leaf);
      }
    } else {
      LeafAppend(t, xs, ys, leaf);
    }
  }

  // ---------- the channels determine the column ----------

  ghost predicate SameStreams(t: Type, xs: seq<Value>, ys: seq<Value>) {
    forall depth: nat, leaf :: Stream(t, xs, depth, leaf) == Stream(t, ys, depth, leaf)
  }

  lemma SameMask(xs: seq<Value>, ys: seq<Value>)
    requires ValidityBytes(Mask(xs)) == ValidityBytes(Mask(ys))
    ensures |xs| == |ys| && forall i :: 0 <= i < |xs| ==> xs[i].Missing? == ys[i].Missing?
  {
    assert |ValidityBytes(Mask(xs))| == |xs| && |ValidityBytes(Mask(ys))| == |ys|;
    forall i | 0 <= i < |xs|
      ensures xs[i].Missing? == ys[i].Missing?
    {
      assert ValidityBytes(Mask(xs))[i] == ValidityBytes(Mask(ys))[i];
    }
  }

  lemma SameLengths<T>(xs: seq<seq<T>>, ys: seq<seq<T>>)
    requires |xs| == |ys|
    requires forall i :: 0 <= i < |xs| ==> |xs[i]| < TWO_64 && |ys[i]| < TWO_64
    requires Flatten(LengthCells(xs)) == Flatten(LengthCells(ys))
    ensures forall i :: 0 <= i < |xs| ==> |xs[i]| == |ys[i]|
  {
    FlattenInjective(LengthCells(xs), LengthCells(ys));
    forall i | 0 <= i < |xs|
      ensures |xs[i]| == |ys[i]|
    {
      assert LengthCells(xs)[i] == LengthCells(ys)[i];
      U64Injective(|xs[i]|, |ys[i]|);
    }
  }

  lemma CellsDetermined(t: Type, xs: seq<Value>, ys: seq<Value>)
    requires t.Bool? || t.Number?
    requires AllHaveType(xs, t) && AllHaveType(ys, t) && SameStreams(t, xs, ys)
    ensures xs == ys
  {
    var w := CellWidth(t);
    assert Stream(t, xs, 0, Validity) == Stream(t, ys, 0, Validity);
    SameMask(xs, ys);
    assert forall i :: 0 <= i < |xs| ==> HasType(xs[i], t) && HasType(ys[i], t);
    assert Stream(t, xs, 0, Data) == Stream(t, ys, 0, Data);
    FlattenInjective(FilledCells(xs, w), FilledCells(ys, w));
    forall i | 0 <= i < |xs|
      ensures xs[i] == ys[i]
    {
      assert FilledCells(xs, w)[i] == FilledCells(ys, w)[i];
    }
  }

  lemma TextsDetermined(xs: seq<Value>, ys: seq<Value>)
    requires AllHaveType(xs, Binary) && AllHaveType(ys, Binary) && SameStreams(Binary, xs, ys)
    ensures xs == ys
  {
    assert Stream(Binary, xs, 0, Validity) == Stream(Binary, ys, 0, Validity);
    SameMask(xs, ys);
    assert forall i :: 0 <= i < |xs| ==> HasType(xs[i], Binary) && HasType(ys[i], Binary);
    assert Stream(Binary, xs, 0, Lengths) == Stream(Binary, ys, 0, Lengths);
    SameLengths(FilledTexts(xs), FilledTexts(ys));
    assert Stream(Binary, xs, 0, Data) == Stream(Binary, ys, 0, Data);
    FlattenInjective(FilledTexts(xs), FilledTexts(ys));
    forall i | 0 <= i < |xs|
      ensures xs[i] == ys[i]
    {
      assert FilledTexts(xs)[i] == FilledTexts(ys)[i];
    }
  }

  lemma ItemsDetermined(t: Type, xs: seq<Value>, ys: seq<Value>)
    requires t.List? || t.FixedList?
    requires AllHaveType(xs, t) && AllHaveType(ys, t) && SameStreams(t, xs, ys)
    requires Flatten(FilledItems(xs)) == Flatten(FilledItems(ys))
    ensures xs == ys
  {
    assert Stream(t, xs, 0, Validity) == Stream(t, ys, 0, Validity);
    SameMask(xs, ys);
    assert forall i :: 0 <= i < |xs| ==> HasType(xs[i], t) && HasType(ys[i], t);
    if t.List? {
      FilledItemsTyped(xs, t);
      FilledItemsTyped(ys, t);
      assert Stream(t, xs, 0, Lengths) == Stream(t, ys, 0, Lengths);
      SameLengths(FilledItems(xs), FilledItems(ys));
    }
    FlattenInjective(FilledItems(xs), FilledItems(ys));
    forall i | 0 <= i < |xs|
      ensures xs[i] == ys[i]
    {
      assert FilledItems(xs)[i] == FilledItems(ys)[i];
    }
  }

  /** Columns of one type whose channels all agree hold the same logical values, nulls included. */
  lemma {:induction false} StreamsDetermine(t: Type, xs: seq<Value>, ys: seq<Value>)
    requires Supported(t) && AllHaveType(xs, t) && AllHaveType(ys, t) && SameStreams(t, xs, ys)
    ensures xs == ys
    decreases t
  {
    match t
    case Null =>
      assert Stream(t, xs, 0, Validity) == Stream(t, ys, 0, Validity);
      SameMask(xs, ys);
      assert forall i :: 0 <= i < |xs| ==> HasType(xs[i], t) && HasType(ys[i], t);
    case Dictionary(c) =>
      assert AllHaveType(xs, c) && AllHaveType(ys, c) by {
        assert forall i :: 0 <= i < |xs| ==> HasType(xs[i], t);
        assert forall i :: 0 <= i < |ys| ==> HasType(ys[i], t);
      }
      forall depth: nat, leaf
        ensures Stream(c, xs, depth, leaf) == Stream(c, ys, depth, leaf)
      {
        assert Stream(t, xs, depth, leaf) == Stream(t, ys, depth, leaf);
      }
      StreamsDetermine(c, xs, ys);
    case Binary => TextsDetermined(xs, ys);
    case Bool => CellsDetermined(t, xs, ys);
    case Number(_) => CellsDetermined(t, xs, ys);
    case FixedList(_, c) =>
      ChildStreams(t, xs, ys);
      StreamsDetermine(c, Flatten(FilledItems(xs)), Flatten(FilledItems(ys)));
      ItemsDetermined(t, xs, ys);
    case List(c) =>
      ChildStreams(t, xs, ys);
      StreamsDetermine(c, Flatten(FilledItems(xs)), Flatten(FilledItems(ys)));
      ItemsDetermined(t, xs, ys);
  }

  lemma ChildStreams(t: Type, xs: seq<Value>, ys: seq<Value>)
    requires t.List? || t.FixedList?
    requires AllHaveType(xs, t) && AllHaveType(ys, t) && SameStreams(t, xs, ys)
    ensures SameStreams(t.child, Flatten(FilledItems(xs)), Flatten(FilledItems(ys)))
    ensures AllHaveType(Flatten(FilledItems(xs)), t.child) && AllHaveType(Flatten(FilledItems(ys)), t.child)
  {
    FilledItemsTyped(xs, t);
    FilledItemsTyped(ys, t);
    var fx, fy := Flatten(FilledItems(xs)), Flatten(FilledItems(ys));
    forall depth: nat, leaf
      ensures Stream(t.child, fx, depth, leaf) == Stream(t.child, fy, depth, leaf)
    {
      assert Stream(t, xs, depth + 1, leaf) == Stream(t, ys, depth + 1, leaf);
    }
  }

  // ---------- null filling and flattening, as the engine's kernels do them ----------

  predicate NoNulls(a: Array)
    requires Valid(a)
  {
    forall i :: 0 <= i < a.len ==> IsValid(a, i)
  }

  function TextRows(a: Array): (r: seq<Value>)
    requires Valid(a) && a.buffer.VarBytes?
    ensures |r| == a.len && AllHaveType(r, Binary) && FilledTexts(r) == FilledTexts(Rows(a))
    ensures forall i :: 0 <= i < a.len ==> !r[i].Missing?
  {
    LogicalsHaveType(a);
    var r := seq(a.len, i requires 0 <= i < a.len =>
      var v := Logical(a, i);
      if v.Text? then v else Text([]));
    assert forall i :: 0 <= i < a.len ==> Rows(a)[i] == Logical(a, i);
    r
  }

  function ListRows(a: Array): (r: seq<Value>)
    requires Valid(a) && a.buffer.Lists?
    ensures |r| == a.len && AllHaveType(r, TypeOf(a)) && FilledItems(r) == FilledItems(Rows(a))
    ensures forall i :: 0 <= i < a.len ==> !r[i].Missing?
  {
    LogicalsHaveType(a);
    assert HasType(Items([]), TypeOf(a));
    var r := seq(a.len, i requires 0 <= i < a.len =>
      var v := Logical(a, i);
      if v.Items? then v else Items([]));
    assert forall i :: 0 <= i < a.len ==> Rows(a)[i] == Logical(a, i);
    r
  }

  /** `fill_null(array, '')`: the array itself when nothing is null, a rebuilt one otherwise. */
  function FillTexts(a: Array): (r: Array)
    requires Valid(a) && a.buffer.VarBytes?
    ensures Valid(r) && r.buffer.VarBytes? && r.len == a.len && NoNulls(r)
    ensures FilledTexts(Rows(r)) == FilledTexts(Rows(a))
  {
    if NoNulls(a) then a else
      var r := FromRows(Binary, TextRows(a));
      FromRowsRoundTrip(Binary, TextRows(a));
      AllPresent(r);
      r
  }

  /** `fill_null(array, [])` on a list column. */
  function FillLists(a: Array): (r: Array)
    requires Valid(a) && a.buffer.Lists?
    ensures Valid(r) && r.buffer.Lists? && TypeOf(r) == TypeOf(a) && r.len == a.len && NoNulls(r)
    ensures FilledItems(Rows(r)) == FilledItems(Rows(a))
  {
    if NoNulls(a) then a else
      var r := FromRows(TypeOf(a), ListRows(a));
      FromRowsRoundTrip(TypeOf(a), ListRows(a));
      AllPresent(r);
      r
  }

  lemma LogicalsHaveType(a: Array)
    requires Valid(a)
    ensures forall i :: 0 <= i < a.len ==> HasType(Logical(a, i), TypeOf(a))
  {
    forall i | 0 <= i < a.len { LogicalHasType(a, i); }
  }

  lemma AllPresent(a: Array)
    requires Valid(a) && forall i :: 0 <= i < a.len ==> !Rows(a)[i].Missing?
    ensures NoNulls(a)
  {
    forall i | 0 <= i < a.len
      ensures IsValid(a, i)
    {
      IsValidLogical(a, i);
      assert !Rows(a)[i].Missing?;
    }
  }

  /** `list_flatten` of a fixed-size list column: null parents contribute nothing. */
  function FlattenFixed(a: Array): (r: Array)
    requires Valid(a) && a.buffer.FixedLists?
    ensures Valid(r) && TypeOf(r) == TypeOf(a.buffer.child)
    ensures Rows(r) == Flatten(FilledItems(Rows(a)))
  {
    RowsHaveType(a);
    FilledItemsTyped(Rows(a), TypeOf(a));
    if NoNulls(a) then
      FixedFlattened(a);
      FixedChildren(a)
    else
      FromRowsRoundTrip(TypeOf(a.buffer.child), Flatten(FilledItems(Rows(a))));
      FromRows(TypeOf(a.buffer.child), Flatten(FilledItems(Rows(a))))
  }

  /** Consecutive cuts of a sequence at given marks join back to the part between first and last. */
  lemma {:induction false} CutsJoin<T>(whole: seq<T>, marks: seq<nat>, pieces: seq<seq<T>>)
    requires |marks| == |pieces| + 1
    requires forall i, j :: 0 <= i <= j < |marks| ==> marks[i] <= marks[j] <= |whole|
    requires forall i :: 0 <= i < |pieces| ==> pieces[i] == whole[marks[i]..marks[i + 1]]
    ensures Flatten(pieces) == whole[marks[0]..marks[|pieces|]]
  {
    if pieces != [] {
      CutsJoin(whole, marks[1..], pieces[1..]);
      assert whole[marks[0]..marks[|pieces|]] == whole[marks[0]..marks[1]] + whole[marks[1]..marks[|pieces|]];
    }
  }

  lemma FixedFlattened(a: Array)
    requires Valid(a) && a.buffer.FixedLists? && NoNulls(a)
    ensures Rows(FixedChildren(a)) == Flatten(FilledItems(Rows(a)))
  {
    var n, children := a.buffer.size, FixedChildren(a);
    var marks := seq(a.len + 1, i requires 0 <= i <= a.len => i * n);
    forall i, j | 0 <= i <= j <= a.len
      ensures marks[i] <= marks[j] <= |Rows(children)|
    {
      MulMono(i, j, n);
      MulMono(j, a.len, n);
    }
    forall i | 0 <= i < a.len
      ensures FilledItems(Rows(a))[i] == Rows(children)[marks[i]..marks[i + 1]]
    {
      FixedRefines(a, i);
    }
    CutsJoin(Rows(children), marks, FilledItems(Rows(a)));
  }

  function RebasedMarks(a: Array): (r: seq<nat>)
    requires Valid(a) && a.buffer.Lists?
    ensures |r| == a.len + 1 && forall i :: 0 <= i <= a.len ==> r[i] == Rebased(a, i)
    ensures forall i, j :: 0 <= i <= j <= a.len ==> r[i] <= r[j] <= ListChildren(a).len
    ensures r[0] == 0 && r[a.len] == ListChildren(a).len
  {
    var children := ListChildren(a);
    seq(a.len + 1, i requires 0 <= i <= a.len => Rebased(a, i))
  }

  lemma ListFlattened(a: Array)
    requires Valid(a) && a.buffer.Lists? && NoNulls(a)
    ensures Rows(ListChildren(a)) == Flatten(FilledItems(Rows(a)))
    ensures forall i :: 0 <= i < a.len ==> |FilledItems(Rows(a))[i]| == Rebased(a, i + 1) - Rebased(a, i)
  {
    var children, pieces := Rows(ListChildren(a)), FilledItems(Rows(a));
    var marks := RebasedMarks(a);
    forall i | 0 <= i < a.len
      ensures pieces[i] == children[marks[i]..marks[i + 1]]
    {
      ListRefines(a, i);
    }
    CutsJoin(children, marks, pieces);
    assert children[marks[0]..marks[a.len]] == children;
  }

  lemma TextsFlattened(a: Array)
    requires Valid(a) && a.buffer.VarBytes? && NoNulls(a)
    ensures a.buffer.offsets[a.offset] <= a.buffer.offsets[a.offset + a.len] <= |a.buffer.data|
    ensures var first, last := a.buffer.offsets[a.offset], a.buffer.offsets[a.offset + a.len];
      a.buffer.data[first..last] == Flatten(FilledTexts(Rows(a)))
  {
    var marks := a.buffer.offsets[a.offset..a.offset + a.len + 1];
    forall i | 0 <= i < a.len
      ensures FilledTexts(Rows(a))[i] == a.buffer.data[marks[i]..marks[i + 1]]
    {
      assert IsValid(a, i);
    }
    CutsJoin(a.buffer.data, marks, FilledTexts(Rows(a)));
  }

  // ---------- what a channel table records ----------

  function Lookup(streams: map<Key, Bytes>, key: Key): Option<Bytes> {
    if key in streams then Some(streams[key]) else None
  }

  /** What a column of type t holding vs, read under the given prefix, sends to channel key. */
  function Sent(t: Type, vs: seq<Value>, column: nat, depth: nat, key: Key): Option<Bytes> {
    if key.column == column && key.depth >= depth then Stream(t, vs, key.depth - depth, key.leaf) else None
  }

  /** One `update` call: key's stream grew by data, every other stream stayed. */
  ghost predicate Updated(before: map<Key, Bytes>, after: map<Key, Bytes>, key: Key, data: Bytes) {
    forall k :: Lookup(after, k) == Extend(Lookup(before, k), if k == key then Some(data) else None)
  }

  /** A whole column of type t holding vs was sent to its channels. */
  ghost predicate Received(before: map<Key, Bytes>, after: map<Key, Bytes>, t: Type, vs: seq<Value>, column: nat,
      depth: nat) {
    forall k :: Lookup(after, k) == Extend(Lookup(before, k), Sent(t, vs, column, depth, k))
  }

  lemma SentParts(t: Type, vs: seq<Value>, column: nat, depth: nat, key: Key)
    requires !t.Dictionary?
    ensures Sent(Dictionary(t), vs, column, depth, key) == Sent(t, vs, column, depth, key)
    ensures Sent(t, vs, column, depth, key) ==
      if key == Key(column, depth, key.leaf) then Stream(t, vs, 0, key.leaf)
      else if t.List? || t.FixedList? then Sent(t.child, Flatten(FilledItems(vs)), column, depth + 1, key)
      else None
  {
  }

  lemma LeafReceived(s0: map<Key, Bytes>, s1: map<Key, Bytes>, s2: map<Key, Bytes>, s3: map<Key, Bytes>,
                     t: Type, vs: seq<Value>, c: nat, d: nat)
    requires Updated(s0, s1, Key(c, d, Validity), ValidityBytes(Mask(vs)))
    requires if t.Binary? then Updated(s1, s2, Key(c, d, Lengths), Flatten(LengthCells(FilledTexts(vs)))) else s1 == s2
    requires if t.Binary? then Updated(s2, s3, Key(c, d, Data), Flatten(FilledTexts(vs)))
      else if t.Bool? || t.Number? then Updated(s2, s3, Key(c, d, Data), Flatten(FilledCells(vs, CellWidth(t))))
      else s2 == s3 && t.Null?
    ensures Received(s0, s3, t, vs, c, d)
  {
    forall k
      ensures Lookup(s3, k) == Extend(Lookup(s0, k), Sent(t, vs, c, d, k))
    {
      SentParts(t, vs, c, d, k);
      assert Lookup(s1, k) == Extend(Lookup(s0, k), if k == Key(c, d, Validity) then Some(ValidityBytes(Mask(vs)))
        else None);
    }
  }

  lemma ListReceived(s0: map<Key, Bytes>, s1: map<Key, Bytes>, s2: map<Key, Bytes>, s3: map<Key, Bytes>,
                     t: Type, vs: seq<Value>, c: nat, d: nat)
    requires t.List? || t.FixedList?
    requires Updated(s0, s1, Key(c, d, Validity), ValidityBytes(Mask(vs)))
    requires if t.List? then Updated(s1, s2, Key(c, d, Lengths), Flatten(LengthCells(FilledItems(vs)))) else s1 == s2
    requires Received(s2, s3, t.child, Flatten(FilledItems(vs)), c, d + 1)
    ensures Received(s0, s3, t, vs, c, d)
  {
    forall k
      ensures Lookup(s3, k) == Extend(Lookup(s0, k), Sent(t, vs, c, d, k))
    {
      SentParts(t, vs, c, d, k);
      assert Lookup(s1, k) == Extend(Lookup(s0, k), if k == Key(c, d, Validity) then Some(ValidityBytes(Mask(vs)))
        else None);
      assert Lookup(s3, k) == Extend(Lookup(s2, k), Sent(t.child, Flatten(FilledItems(vs)), c, d + 1, k));
    }
  }

  /** A dictionary column sends what its decoded column sends. */
  lemma DecodedReceived(s0: map<Key, Bytes>, s1: map<Key, Bytes>, t: Type, vs: seq<Value>, c: nat, d: nat)
    requires !t.Dictionary? && Received(s0, s1, t, vs, c, d)
    ensures Received(s0, s1, Dictionary(t), vs, c, d)
  {
    forall k
      ensures Lookup(s1, k) == Extend(Lookup(s0, k), Sent(Dictionary(t), vs, c, d, k))
    {
      SentParts(t, vs, c, d, k);
    }
  }

  // ---------- the bytes computed from physical arrays ----------

  /** `np.diff(offsets)` of a column without nulls, as eight-byte integers. */
  function TextLengths(a: Array): (r: Bytes)
    requires Valid(a) && a.buffer.VarBytes? && NoNulls(a)
    ensures r == Flatten(LengthCells(FilledTexts(Rows(a))))
  {
    var offsets := a.buffer.offsets;
    var lengths := seq(a.len, i requires 0 <= i < a.len =>
      LittleEndian(offsets[a.offset + i + 1] - offsets[a.offset + i], 8));
    assert lengths == LengthCells(FilledTexts(Rows(a))) by {
      assert forall i :: 0 <= i < a.len ==> IsValid(a, i) && Rows(a)[i] == Logical(a, i);
    }
    Flatten(lengths)
  }

  /** The value bytes between the first and the last offset of the window. */
  function TextData(a: Array): (r: Bytes)
    requires Valid(a) && a.buffer.VarBytes? && NoNulls(a)
    ensures r == Flatten(FilledTexts(Rows(a)))
  {
    TextsFlattened(a);
    a.buffer.data[a.buffer.offsets[a.offset]..a.buffer.offsets[a.offset + a.len]]
  }

  function ListLengths(a: Array): (r: Bytes)
    requires Valid(a) && a.buffer.Lists? && NoNulls(a)
    ensures r == Flatten(LengthCells(FilledItems(Rows(a))))
  {
    ListFlattened(a);
    var lengths := seq(a.len, i requires 0 <= i < a.len => LittleEndian(Rebased(a, i + 1) - Rebased(a, i), 8));
    assert lengths == LengthCells(FilledItems(Rows(a)));
    Flatten(lengths)
  }

  function CellData(a: Array): (r: Bytes)
    requires Valid(a) && a.buffer.Flat?
    ensures r == Flatten(FilledCells(Rows(a), CellWidth(TypeOf(a))))
  {
    assert FilledColumn(a) == FilledCells(Rows(a), CellWidth(TypeOf(a))) by {
      assert forall i :: 0 <= i < a.len ==> Rows(a)[i] == Logical(a, i);
    }
    Flatten(FilledColumn(a))
  }

  function ValidData(a: Array): (r: Bytes)
    requires Valid(a)
    ensures r == ValidityBytes(Mask(Rows(a)))
  {
    assert ValidColumn(a) == Mask(Rows(a)) by {
      forall i | 0 <= i < a.len ensures ValidColumn(a)[i] == Mask(Rows(a))[i] {
        IsValidLogical(a, i);
      }
    }
    ValidityBytes(ValidColumn(a))
  }

  // ---------- the running hashers ----------

  class Channels {
    var streams: map<Key, Bytes>

    constructor ()
      ensures streams == map[]
    {
      streams := map[];
    }

    method Update(key: Key, data: Bytes)
      modifies this
      ensures Updated(old(streams), streams, key, data)
    {
      if key in streams {
        streams := streams[key := streams[key] + data];
      } else {
        streams := streams[key := data];
      }
    }

    /** Feeds one array to its channels; false when a type in it is unsupported. */
    method Column(column: nat, depth: nat, source: Array) returns (ok: bool)
      requires Valid(source)
      modifies this
      ensures ok <==> Supported(TypeOf(source))
      ensures ok ==> Received(old(streams), streams, TypeOf(source), Rows(source), column, depth)
      decreases TypeOf(source), 1
    {
      if source.buffer.Coded? {
        var decoded := Decode(source);
        if TypeOf(decoded).Dictionary? {
          Update(Key(column, depth, Validity), ValidData(decoded));
          return false;
        }
        ok := Plain(column, depth, decoded);
        if ok {
          DecodedReceived(old(streams), streams, TypeOf(decoded), Rows(decoded), column, depth);
        }
      } else {
        ok := Plain(column, depth, source);
      }
    }

    method Plain(column: nat, depth: nat, a: Array) returns (ok: bool)
      requires Valid(a) && !a.buffer.Coded?
      modifies this
      ensures ok <==> Supported(TypeOf(a))
      ensures ok ==> Received(old(streams), streams, TypeOf(a), Rows(a), column, depth)
      decreases TypeOf(a), 0
    {
      ghost var t, vs := TypeOf(a), Rows(a);
      Update(Key(column, depth, Validity), ValidData(a));
      ghost var s1 := streams;
      if a.buffer.Foreign? {
        return false;
      } else if a.buffer.Lists? {
        var filled := FillLists(a);
        Update(Key(column, depth, Lengths), ListLengths(filled));
        ghost var s2 := streams;
        ListFlattened(filled);
        ok := Column(column, depth + 1, ListChildren(filled));
        if ok { ListReceived(old(streams), s1, s2, streams, t, vs, column, depth); }
      } else if a.buffer.FixedLists? {
        ok := Column(column, depth + 1, FlattenFixed(a));
        if ok { ListReceived(old(streams), s1, s1, streams, t, vs, column, depth); }
      } else {
        ok := true;
        ghost var s2 := s1;
        if a.buffer.VarBytes? {
          var filled := FillTexts(a);
          Update(Key(column, depth, Lengths), TextLengths(filled));
          s2 := streams;
          Update(Key(column, depth, Data), TextData(filled));
        } else if a.buffer.Flat? {
          Update(Key(column, depth, Data), CellData(a));
        }
        LeafReceived(old(streams), s1, s2, streams, t, vs, column, depth);
      }
    }
  }

  // ---------- the whole fingerprint ----------

  datatype Print<+D> = Print(rows: nat, schema: D, columns: map<Key, D>)

  ghost function ColumnValues(rows: seq<Row>, c: nat): (r: seq<Value>)
    requires forall i :: 0 <= i < |rows| ==> c < |rows[i]|
    ensures |r| == |rows|
  {
    seq(|rows|, i requires 0 <= i < |rows| => rows[i][c])
  }

  ghost predicate FullRows(schema: Schema, rows: seq<Row>) {
    forall i :: 0 <= i < |rows| ==> |rows[i]| == |schema.fields|
  }

  /** What channel k has received once the given rows were read, in however many batches. A channel
      exists as soon as one batch was read, even an empty one. */
  ghost function Expected(schema: Schema, rows: seq<Row>, started: bool, k: Key): Option<Bytes>
    requires FullRows(schema, rows)
  {
    if !started || k.column >= |schema.fields| then None
    else Stream(schema.fields[k.column].kind, ColumnValues(rows, k.column), k.depth, k.leaf)
  }

  /** Channels of columns before c already hold `later`, the others still hold `sooner`. */
  ghost predicate Between(streams: map<Key, Bytes>, schema: Schema, c: nat, sooner: seq<Row>, started: bool,
      later: seq<Row>)
    requires FullRows(schema, sooner) && FullRows(schema, later)
  {
    forall k :: Lookup(streams, k) ==
      if k.column < c then Expected(schema, later, true, k) else Expected(schema, sooner, started, k)
  }

  lemma ColumnStep(before: map<Key, Bytes>, after: map<Key, Bytes>, schema: Schema, b: Batch, c: nat,
                   sooner: seq<Row>, started: bool)
    requires ValidBatch(schema, b) && c < |b.columns| && FullRows(schema, sooner)
    requires !started ==> sooner == []
    requires Between(before, schema, c, sooner, started, sooner + BatchRows(schema, b))
    requires Received(before, after, schema.fields[c].kind, Rows(b.columns[c]), c, 0)
    ensures Between(after, schema, c + 1, sooner, started, sooner + BatchRows(schema, b))
  {
    var t, added := schema.fields[c].kind, BatchRows(schema, b);
    assert ColumnValues(added, c) == Rows(b.columns[c]);
    assert ColumnValues(sooner + added, c) == ColumnValues(sooner, c) + ColumnValues(added, c);
    forall k
      ensures Lookup(after, k) ==
        if k.column < c + 1 then Expected(schema, sooner + added, true, k) else Expected(schema, sooner, started, k)
    {
      assert Lookup(after, k) == Extend(Lookup(before, k), Sent(t, Rows(b.columns[c]), c, 0, k));
      if k.column == c {
        StreamAppend(t, ColumnValues(sooner, c), ColumnValues(added, c), k.depth, k.leaf);
        if !started { assert ColumnValues(sooner + added, c) == ColumnValues(added, c); }
      }
    }
  }

  /** The recorded fingerprint: row count, schema digest, and one digest per channel. */
  ghost predicate IsPrint<D>(hash: Bytes -> D, serialize: Schema -> Bytes, ds: Dataset, print_: Print<D>)
    requires ValidDataset(ds)
  {
    && (ds.batches == [] || SupportedSchema(ds.schema))
    && print_.rows == |LiveRows(ds)|
    && print_.schema == hash(serialize(ds.schema))
    && FullRows(ds.schema, LiveRows(ds))
    && forall k ::
      match Expected(ds.schema, LiveRows(ds), ds.batches != [], k)
      case None => k !in print_.columns
      case Some(bytes) => k in print_.columns && print_.columns[k] == hash(bytes)
  }

  method Digest<D>(hash: Bytes -> D, serialize: Schema -> Bytes, ds: Dataset) returns (r: Recovery.Result<Print<D>>)
    requires ValidDataset(ds)
    ensures r.Success? <==> ds.batches == [] || SupportedSchema(ds.schema)
    ensures r.Success? ==> IsPrint(hash, serialize, ds, r.value)
    ensures r.Failure? ==> r.error == UnsupportedType
  {
    var channels := new Channels();
    var rows := 0;
    var schema := ds.schema;
    ghost var done: seq<Row> := [];
    for n := 0 to |ds.batches|
      invariant n > 0 ==> SupportedSchema(schema)
      invariant done == RowsOf(schema, ds.batches[..n]) && rows == |done| && FullRows(schema, done)
      invariant Between(channels.streams, schema, 0, done, n > 0, done)
    {
      var b := ds.batches[n];
      rows := rows + b.rowCount;
      ghost var later := done + BatchRows(schema, b);
      RowsOfStep(schema, ds.batches, n);
      var c := 0;
      while c < |b.columns|
        invariant c <= |b.columns|
        invariant forall i :: 0 <= i < c ==> Supported(schema.fields[i].kind)
        invariant Between(channels.streams, schema, c, done, n > 0, later)
      {
        ghost var before := channels.streams;
        var ok := channels.Column(c, 0, b.columns[c]);
        if !ok {
          return Failure(UnsupportedType);
        }
        ColumnStep(before, channels.streams, schema, b, c, done, n > 0);
        c := c + 1;
      }
      done := later;
    }
    assert ds.batches[..|ds.batches|] == ds.batches;
    var streams := channels.streams;
    var columns := map k | k in streams :: hash(streams[k]);
    forall k
      ensures match Expected(schema, done, ds.batches != [], k)
              case None => k !in columns
              case Some(bytes) => k in columns && columns[k] == hash(bytes)
    {
      assert Lookup(streams, k) == Expected(schema, done, ds.batches != [], k);
    }
    return Success(Print(rows, hash(serialize(schema)), columns));
  }

  ghost predicate InjectiveBytes<D(!new)>(hash: Bytes -> D) {
    forall x, y {:trigger hash(x), hash(y)} :: hash(x) == hash(y) ==> x == y
  }

  ghost predicate InjectiveSchemas(serialize: Schema -> Bytes) {
    forall x, y {:trigger serialize(x), serialize(y)} :: serialize(x) == serialize(y) ==> x == y
  }

  lemma {:induction false} ValidityPresent(t: Type, vs: seq<Value>)
    ensures Stream(t, vs, 0, Validity).Some?
    decreases t
  {
    if t.Dictionary? { ValidityPresent(t.values, vs); }
  }

  lemma ColumnsTyped(ds: Dataset, c: nat)
    requires ValidDataset(ds) && SupportedSchema(ds.schema) && c < |ds.schema.fields|
    ensures AllHaveType(ColumnValues(LiveRows(ds), c), ds.schema.fields[c].kind)
  {
    var rows := LiveRows(ds);
    forall i | 0 <= i < |rows|
      ensures HasType(ColumnValues(rows, c)[i], ds.schema.fields[c].kind)
    {
      assert RowTyped(Types(ds.schema), rows[i]);
    }
  }

  lemma SameColumns<D(!new)>(hash: Bytes -> D, serialize: Schema -> Bytes, a: Dataset, b: Dataset, p: Print<D>, c: nat)
    requires ValidDataset(a) && ValidDataset(b) && InjectiveBytes(hash) && a.schema == b.schema
    requires IsPrint(hash, serialize, a, p) && IsPrint(hash, serialize, b, p)
    requires a.batches != [] && b.batches != [] && c < |a.schema.fields|
    ensures ColumnValues(LiveRows(a), c) == ColumnValues(LiveRows(b), c)
  {
    var t, xs, ys := a.schema.fields[c].kind, ColumnValues(LiveRows(a), c), ColumnValues(LiveRows(b), c);
    forall depth: nat, leaf
      ensures Stream(t, xs, depth, leaf) == Stream(t, ys, depth, leaf)
    {
      var k := Key(c, depth, leaf);
      assert k in p.columns <==> Stream(t, xs, depth, leaf).Some?;
      assert k in p.columns <==> Stream(t, ys, depth, leaf).Some?;
      if k in p.columns {
        assert hash(Stream(t, xs, depth, leaf).value) == hash(Stream(t, ys, depth, leaf).value);
      }
    }
    ColumnsTyped(a, c);
    ColumnsTyped(b, c);
    StreamsDetermine(t, xs, ys);
  }

  /** Equal fingerprints mean equal schemas and equal logical rows in equal order. Conversely equal
      rows give equal fingerprints however they are batched and whatever hides under their nulls,
      except that a scan without any batch records no channels while one empty batch records all. */
  lemma PrintsAgree<D(!new)>(hash: Bytes -> D, serialize: Schema -> Bytes, a: Dataset, b: Dataset, p: Print<D>,
      q: Print<D>)
    requires ValidDataset(a) && ValidDataset(b) && InjectiveBytes(hash) && InjectiveSchemas(serialize)
    requires IsPrint(hash, serialize, a, p) && IsPrint(hash, serialize, b, q)
    ensures p == q <==>
      && a.schema == b.schema
      && LiveRows(a) == LiveRows(b)
      && (a.schema.fields == [] || (a.batches == [] <==> b.batches == []))
  {
    if p == q {
      assert hash(serialize(a.schema)) == hash(serialize(b.schema));
      if a.schema.fields != [] {
        BatchesAgree(hash, serialize, a, b, p);
      }
      forall i | 0 <= i < |LiveRows(a)|
        ensures LiveRows(a)[i] == LiveRows(b)[i]
      {
        forall c | 0 <= c < |a.schema.fields|
          ensures LiveRows(a)[i][c] == LiveRows(b)[i][c]
        {
          SameColumns(hash, serialize, a, b, p, c);
          assert ColumnValues(LiveRows(a), c)[i] == ColumnValues(LiveRows(b), c)[i];
        }
      }
    }
    if a.schema == b.schema && LiveRows(a) == LiveRows(b)
      && (a.schema.fields == [] || (a.batches == [] <==> b.batches == [])) {
      forall k: Key
        ensures k in p.columns <==> k in q.columns
        ensures k in p.columns ==> p.columns[k] == q.columns[k]
      {
        if k.column < |a.schema.fields| {
          assert Expected(a.schema, LiveRows(a), a.batches != [], k)
              == Expected(b.schema, LiveRows(b), b.batches != [], k);
        }
      }
      assert p.columns == q.columns;
    }
  }

  lemma BatchesAgree<D(!new)>(hash: Bytes -> D, serialize: Schema -> Bytes, a: Dataset, b: Dataset, p: Print<D>)
    requires ValidDataset(a) && ValidDataset(b) && a.schema == b.schema && a.schema.fields != []
    requires IsPrint(hash, serialize, a, p) && IsPrint(hash, serialize, b, p)
    ensures a.batches == [] <==> b.batches == []
  {
    var k, t := Key(0, 0, Validity), a.schema.fields[0].kind;
    ValidityPresent(t, ColumnValues(LiveRows(a), 0));
    ValidityPresent(t, ColumnValues(LiveRows(b), 0));
    assert k in p.columns <==> Expected(a.schema, LiveRows(a), a.batches != [], k).Some?;
    assert k in p.columns <==> Expected(b.schema, LiveRows(b), b.batches != [], k).Some?;
  }

  /** Two tables of one column and no rows: a scan without a batch and a scan with an empty one. */
  const NO_BATCH := Dataset(Schema([Field("id", Null)], ""), [])
  const EMPTY_BATCH := Dataset(Schema([Field("id", Null)], ""), [Batch(0, [Array(Nulls, 0, 0)])])

  /** The same schema and the same rows, and still two fingerprints. */
  lemma SameRowsDifferentPrints<D(!new)>(hash: Bytes -> D, serialize: Schema -> Bytes, p: Print<D>, q: Print<D>)
    requires InjectiveBytes(hash) && InjectiveSchemas(serialize)
    requires IsPrint(hash, serialize, NO_BATCH, p)
    requires IsPrint(hash, serialize, EMPTY_BATCH, q)
    ensures NO_BATCH.schema == EMPTY_BATCH.schema && LiveRows(NO_BATCH) == LiveRows(EMPTY_BATCH) == []
    ensures p != q
  {
    assert EMPTY_BATCH.batches[..0] == [];
    PrintsAgree(hash, serialize, NO_BATCH, EMPTY_BATCH, p, q);
  }
}
