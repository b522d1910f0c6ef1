/** Rewriting a tensor file down to its text tensors: a new layout, a chunked copy, and a re-check
    of the result by the same reader. */
module TensorArtifact {
  import opened Basics
  import opened Sorting
  import opened ByteStrings
  import opened Json
  import opened TensorHeader

  const MAX_OUTPUT := 1024 * 1024 * 1024
  const CHUNK := 1024 * 1024
  const PREFIX: Name := Ascii("language_model.")

  datatype Entry = Entry(name: Name, tensor: Tensor)

  function Size(t: Tensor): nat
    requires t.start <= t.end
  {
    t.end - t.start
  }

  /** Some header entry under a text name describes this tensor. */
  ghost predicate TextEntry(fields: seq<Member>, payload: nat, e: Entry) {
    exists m :: m in fields && TextField(m, payload, e)
  }

  ghost predicate TextField(m: Member, payload: nat, e: Entry) {
    Ascii("language_model.") <= m.name == e.name && ReadTensor(m.value, payload) == Some(e.tensor)
  }

  /** The header entries whose name opens with the text prefix, with their tensors: all of them, no others. */
  function Retained(fields: seq<Member>, payload: nat): (r: seq<Entry>)
    requires TensorFields(fields, payload)
    ensures |r| <= |fields|
    ensures forall e :: e in r <==> TextEntry(fields, payload, e)
    ensures forall e :: e in r ==> e.tensor.start <= e.tensor.end <= payload && |e.tensor.shape| <= MAX_DIMENSIONS
    ensures forall e :: e in r ==> PREFIX <= e.name
  {
    if fields == [] then []
    else
      var rest := Retained(fields[1..], payload);
      TextHead(fields, payload);
      if PREFIX <= fields[0].name then
        PrefixIsNotMetadata(fields[0].name);
        assert fields[0] in fields;
        [Entry(fields[0].name, ReadTensor(fields[0].value, payload).value)] + rest
      else rest
  }

  lemma TextHead(fields: seq<Member>, payload: nat)
    requires fields != []
    ensures forall e :: TextEntry(fields, payload, e) <==>
      TextField(fields[0], payload, e) || TextEntry(fields[1..], payload, e)
  {
    hide TextField;
    forall e
      ensures TextEntry(fields, payload, e) <==>
        TextField(fields[0], payload, e) || TextEntry(fields[1..], payload, e)
    {
      assert fields[0] in fields && forall m :: m in fields ==> m == fields[0] || m in fields[1..];
      assert forall m :: m in fields[1..] ==> m in fields;
    }
  }

  lemma PrefixIsNotMetadata(name: Name)
    requires PREFIX <= name
    ensures name != METADATA
  {
    assert name[0] == PREFIX[0] == 'l' as int;
    assert METADATA[0] == '_' as int;
  }

  /** Code unit order on names. */
  predicate NameBefore(a: Name, b: Name) {
    if a == [] then true
    else if b == [] then false
    else a[0] < b[0] || (a[0] == b[0] && NameBefore(a[1..], b[1..]))
  }

  lemma {:induction false} NameOrderTotal(a: Name, b: Name)
    ensures NameBefore(a, b) || NameBefore(b, a)
  {
    if a != [] && b != [] { NameOrderTotal(a[1..], b[1..]); }
  }

  lemma {:induction false} NameOrderTransitive(a: Name, b: Name, c: Name)
    ensures NameBefore(a, b) && NameBefore(b, c) ==> NameBefore(a, c)
  {
    if a != [] && b != [] && c != [] { NameOrderTransitive(a[1..], b[1..], c[1..]); }
  }

  /** `a` is the beginning of `b`, or is smaller where they first differ. */
  ghost predicate Precedes(a: Name, b: Name) {
    a <= b || exists k :: 0 <= k < |a| && k < |b| && a[..k] == b[..k] && a[k] < b[k]
  }

  lemma {:induction false} NameOrderMeans(a: Name, b: Name)
    ensures NameBefore(a, b) <==> Precedes(a, b)
  {
    if a != [] && b != [] {
      NameOrderMeans(a[1..], b[1..]);
      if a[0] == b[0] {
        PrecedesTail(a, b);
      } else if a[0] < b[0] {
        assert a[..0] == b[..0];
      }
    }
  }

  lemma PrecedesTail(a: Name, b: Name)
    requires a != [] && b != [] && a[0] == b[0]
    ensures Precedes(a, b) <==> Precedes(a[1..], b[1..])
  {
    var x, y := a[1..], b[1..];
    if Precedes(x, y) && !(x <= y) {
      var k :| 0 <= k < |x| && k < |y| && x[..k] == y[..k] && x[k] < y[k];
      assert a[..k + 1] == [a[0]] + x[..k] && b[..k + 1] == [b[0]] + y[..k];
      assert a[k + 1] < b[k + 1];
    }
    if Precedes(a, b) && !(a <= b) {
      var k :| 0 <= k < |a| && k < |b| && a[..k] == b[..k] && a[k] < b[k];
      assert k > 0;
      assert x[..k - 1] == a[..k][1..] && y[..k - 1] == b[..k][1..];
      assert x[k - 1] < y[k - 1];
    }
    assert a == [a[0]] + x && b == [b[0]] + y;
  }

  predicate ByName(a: Entry, b: Entry) {
    NameBefore(a.name, b.name)
  }

  /** `sorted(retained.items())` */
  function SortEntries(entries: seq<Entry>): seq<Entry> {
    Sort(ByName, entries)
  }

  /** Every entry is kept, and names come in order. */
  lemma SortEntriesOrders(entries: seq<Entry>)
    ensures multiset(SortEntries(entries)) == multiset(entries)
    ensures var sorted := SortEntries(entries);
      forall i, j :: 0 <= i < j < |sorted| ==> Precedes(sorted[i].name, sorted[j].name)
  {
    SortKeeps(ByName, entries);
    assert Orders(ByName, entries) by {
      forall a: Entry, b: Entry, c: Entry
        ensures ByName(a, b) || ByName(b, a)
        ensures ByName(a, b) && ByName(b, c) ==> ByName(a, c)
      {
        NameOrderTotal(a.name, b.name);
        NameOrderTransitive(a.name, b.name, c.name);
      }
    }
    SortSorts(ByName, entries);
    var sorted := SortEntries(entries);
    forall i, j | 0 <= i < j < |sorted|
      ensures Precedes(sorted[i].name, sorted[j].name)
    {
      NameOrderMeans(sorted[i].name, sorted[j].name);
    }
  }

  // ---------- the new layout ----------

  function TotalSize(entries: seq<Entry>): nat
    requires forall e :: e in entries ==> e.tensor.start <= e.tensor.end
  {
    if entries == [] then 0 else TotalSize(entries[..|entries| - 1]) + Size(entries[|entries| - 1].tensor)
  }

  function Numbers(ns: seq<nat>): (r: seq<Json>)
    ensures |r| == |ns|
  {
    seq(|ns|, i requires 0 <= i < |ns| => Int(ns[i]))
  }

  function TensorJson(shape: seq<nat>, start: nat, end: nat): Json {
    Obj([Member(DTYPE, Str(BF16)), Member(SHAPE, Arr(Numbers(shape))),
      Member(DATA_OFFSETS, Arr(Numbers([start, end])))])
  }

  /** Each tensor follows the one before it; order, names and shapes stay. */
  function NewFields(entries: seq<Entry>): (r: seq<Member>)
    requires forall e :: e in entries ==> e.tensor.start <= e.tensor.end
    ensures |r| == |entries|
  {
    if entries == [] then []
    else
      var before, last := entries[..|entries| - 1], entries[|entries| - 1];
      var offset := TotalSize(before);
      NewFields(before) + [Member(last.name, TensorJson(last.tensor.shape, offset, offset + Size(last.tensor)))]
  }

  /** The printed header, padded with spaces to a multiple of eight. */
  function EncodedHeader(entries: seq<Entry>): Bytes
    requires forall e :: e in entries ==> e.tensor.start <= e.tensor.end
  {
    var text := Print(Obj(NewFields(entries)));
    text + Spaces((0 - |text|) % 8)
  }

  function TensorBytes(file: Bytes, base: nat, t: Tensor): Bytes
    requires t.start <= t.end && base + t.end <= |file|
  {
    file[base + t.start..base + t.end]
  }

  ghost predicate InFile(entries: seq<Entry>, file: Bytes, base: nat) {
    forall e :: e in entries ==> e.tensor.start <= e.tensor.end && base + e.tensor.end <= |file|
  }

  ghost function PayloadOf(file: Bytes, base: nat, entries: seq<Entry>): Bytes
    requires InFile(entries, file, base)
  {
    if entries == [] then []
    else PayloadOf(file, base, entries[..|entries| - 1]) + TensorBytes(file, base, entries[|entries| - 1].tensor)
  }

  lemma {:induction false} PayloadLength(file: Bytes, base: nat, entries: seq<Entry>)
    requires InFile(entries, file, base)
    ensures |PayloadOf(file, base, entries)| == TotalSize(entries)
  {
    if entries != [] { PayloadLength(file, base, entries[..|entries| - 1]); }
  }

  /** Tensor i occupies its own stretch of the new payload. */
  lemma {:induction false} PayloadAt(file: Bytes, base: nat, entries: seq<Entry>, i: nat)
    requires InFile(entries, file, base) && i < |entries|
    ensures TotalSize(entries[..i]) + Size(entries[i].tensor) <= TotalSize(entries) == |PayloadOf(file, base, entries)|
    ensures PayloadOf(file, base, entries)[TotalSize(entries[..i])..TotalSize(entries[..i]) + Size(entries[i].tensor)]
         == TensorBytes(file, base, entries[i].tensor)
    decreases |entries|
  {
    var n := |entries| - 1;
    PayloadSnoc(file, base, entries);
    var front, last := PayloadOf(file, base, entries[..n]), TensorBytes(file, base, entries[n].tensor);
    hide PayloadOf, TotalSize, TensorBytes, InFile;
    if i < n {
      PayloadAt(file, base, entries[..n], i);
      assert entries[..n][..i] == entries[..i];
      var at := TotalSize(entries[..i]);
      CutFront(front, last, at, at + Size(entries[i].tensor));
    } else {
      assert (front + last)[|front|..|front| + |last|] == last;
    }
  }

  lemma PayloadSnoc(file: Bytes, base: nat, entries: seq<Entry>)
    requires InFile(entries, file, base) && entries != []
    ensures var front, last := entries[..|entries| - 1], entries[|entries| - 1].tensor;
      && InFile(front, file, base) && last.start <= last.end && base + last.end <= |file|
      && PayloadOf(file, base, entries) == PayloadOf(file, base, front) + TensorBytes(file, base, last)
      && |PayloadOf(file, base, front)| == TotalSize(front) && |TensorBytes(file, base, last)| == Size(last)
      && TotalSize(entries) == TotalSize(front) + Size(last)
  {
    PayloadLength(file, base, entries[..|entries| - 1]);
  }

  lemma CutFront(front: Bytes, last: Bytes, a: nat, b: nat)
    requires a <= b <= |front|
    ensures (front + last)[a..b] == front[a..b]
  {
  }

  lemma {:induction false} NewFieldAt(entries: seq<Entry>, i: nat)
    requires i < |entries| && forall e :: e in entries ==> e.tensor.start <= e.tensor.end
    ensures TotalSize(entries[..i]) + Size(entries[i].tensor) <= TotalSize(entries)
    ensures NewFields(entries)[i] == Member(entries[i].name,
      TensorJson(entries[i].tensor.shape, TotalSize(entries[..i]), TotalSize(entries[..i]) + Size(entries[i].tensor)))
    decreases |entries|
  {
    var n := |entries| - 1;
    if i < n {
      NewFieldAt(entries[..n], i);
      assert entries[..n][..i] == entries[..i];
    }
  }

  // ---------- the printed header reads back ----------

  lemma {:induction false} NumbersRead(ns: seq<nat>)
    ensures Naturals(Numbers(ns)) == Some(ns)
  {
    if ns != [] {
      NumbersRead(ns[1..]);
      assert Numbers(ns)[1..] == Numbers(ns[1..]);
      assert ns == [ns[0]] + ns[1..];
    }
  }

  lemma FieldNamesDiffer()
    ensures DTYPE != SHAPE && DTYPE != DATA_OFFSETS && SHAPE != DATA_OFFSETS
  {
    assert |DTYPE| == 5 && |SHAPE| == 5 && |DATA_OFFSETS| == 12;
    assert DTYPE[0] == 'd' as int && SHAPE[0] == 's' as int;
  }

  lemma GetThree(a: Member, b: Member, c: Member)
    requires a.name != b.name && a.name != c.name && b.name != c.name
    ensures Get([a, b, c], a.name) == Some(a.value)
    ensures Get([a, b, c], b.name) == Some(b.value)
    ensures Get([a, b, c], c.name) == Some(c.value)
  {
    assert [a, b, c][1..] == [b, c] && [b, c][1..] == [c];
    assert Get([c], c.name) == Some(c.value);
    assert Get([b, c], b.name) == Some(b.value) && Get([b, c], c.name) == Get([c], c.name);
  }

  lemma Bf16TakesTwo()
    ensures DtypeBytes(BF16) == Some(2)
  {
  }

  /** What the reader makes of an entry once its three fields are known. */
  lemma ReadsThree(v: Json, dtype: Name, width: nat, dims: seq<nat>, start: nat, end: nat, payload: nat)
    requires v.Obj? && Get(v.fields, DTYPE) == Some(Str(dtype)) && DtypeBytes(dtype) == Some(width)
    requires Get(v.fields, SHAPE) == Some(Arr(Numbers(dims))) && Naturals(Numbers(dims)) == Some(dims)
    requires Get(v.fields, DATA_OFFSETS) == Some(Arr(Numbers([start, end])))
    requires |dims| <= MAX_DIMENSIONS && start <= end <= payload && end - start == Product(dims) * width
    ensures ReadTensor(v, payload) == Some(Tensor(dtype, dims, start, end))
  {
    ChecksThree(dtype, width, dims, Numbers(dims), start, end, Numbers([start, end]), payload);
    hide Numbers, Naturals, Get, Product, DtypeBytes, CheckTensor;
  }

  lemma ChecksThree(dtype: Name, width: nat, dims: seq<nat>, sizes: seq<Json>, start: nat, end: nat, pair: seq<Json>,
      payload: nat)
    requires DtypeBytes(dtype) == Some(width) && Naturals(sizes) == Some(dims) && |sizes| == |dims|
    requires |pair| == 2 && pair[0] == Int(start) && pair[1] == Int(end)
    requires |dims| <= MAX_DIMENSIONS && start <= end <= payload && end - start == Product(dims) * width
    ensures CheckTensor(Some(Str(dtype)), Some(Arr(sizes)), Some(Arr(pair)), payload)
         == Some(Tensor(dtype, dims, start, end))
  {
    hide Naturals, Product, DtypeBytes;
  }

  lemma TensorJsonReads(shape: seq<nat>, start: nat, end: nat, payload: nat)
    requires |shape| <= MAX_DIMENSIONS && start <= end <= payload && end - start == Product(shape) * 2
    ensures ReadTensor(TensorJson(shape, start, end), payload) == Some(Tensor(BF16, shape, start, end))
    ensures Printable(TensorJson(shape, start, end))
  {
    var a, b, c := Member(DTYPE, Str(BF16)), Member(SHAPE, Arr(Numbers(shape))),
      Member(DATA_OFFSETS, Arr(Numbers([start, end])));
    FieldNamesDiffer();
    NumbersRead(shape);
    Bf16TakesTwo();
    GetThree(a, b, c);
    PrintableNumbers(shape);
    PrintableNumbers([start, end]);
    ReadsThree(Obj([a, b, c]), BF16, 2, shape, start, end, payload);
    PrintableThree(a, b, c);
  }

  lemma PrintableNumbers(ns: seq<nat>)
    ensures Printable(Arr(Numbers(ns)))
  {
  }

  lemma PrintableThree(a: Member, b: Member, c: Member)
    requires a.name != b.name && a.name != c.name && b.name != c.name
    requires Printable(a.value) && Printable(b.value) && Printable(c.value)
    ensures Printable(Obj([a, b, c]))
  {
  }

  /** What the build relies on about the tensors it keeps. */
  ghost predicate Keepable(entries: seq<Entry>) {
    && (forall e :: e in entries ==> e.tensor.start <= e.tensor.end && |e.tensor.shape| <= MAX_DIMENSIONS)
    && (forall e :: e in entries ==> e.tensor.end - e.tensor.start == Product(e.tensor.shape) * 2)
    && (forall e :: e in entries ==> e.name != METADATA)
    && (forall i, j :: 0 <= i < j < |entries| ==> entries[i].name != entries[j].name)
  }

  ghost function NewTensor(entries: seq<Entry>, i: nat): Tensor
    requires i < |entries| && forall e :: e in entries ==> e.tensor.start <= e.tensor.end
  {
    var offset := TotalSize(entries[..i]);
    Tensor(BF16, entries[i].tensor.shape, offset, offset + Size(entries[i].tensor))
  }

  lemma NewFieldReads(entries: seq<Entry>, i: nat)
    requires Keepable(entries) && i < |entries|
    ensures NewFields(entries)[i].name == entries[i].name != METADATA
    ensures Printable(NewFields(entries)[i].value)
    ensures ReadTensor(NewFields(entries)[i].value, TotalSize(entries)) == Some(NewTensor(entries, i))
  {
    assert entries[i] in entries;
    KeptFieldReads(entries, i);
  }

  lemma KeptFieldReads(entries: seq<Entry>, i: nat)
    requires i < |entries| && forall e :: e in entries ==> e.tensor.start <= e.tensor.end
    requires |entries[i].tensor.shape| <= MAX_DIMENSIONS
    requires entries[i].tensor.end - entries[i].tensor.start == Product(entries[i].tensor.shape) * 2
    ensures NewFields(entries)[i].name == entries[i].name
    ensures Printable(NewFields(entries)[i].value)
    ensures ReadTensor(NewFields(entries)[i].value, TotalSize(entries)) == Some(NewTensor(entries, i))
  {
    hide Printable, ReadTensor, TensorJson, NewFields, Product, TotalSize;
    NewFieldAt(entries, i);
    EntryReads(entries[i], TotalSize(entries[..i]), TotalSize(entries));
  }

  lemma EntryReads(e: Entry, offset: nat, total: nat)
    requires e.tensor.start <= e.tensor.end && |e.tensor.shape| <= MAX_DIMENSIONS
    requires e.tensor.end - e.tensor.start == Product(e.tensor.shape) * 2
    requires offset + Size(e.tensor) <= total
    ensures var v := TensorJson(e.tensor.shape, offset, offset + Size(e.tensor));
      Printable(v) && ReadTensor(v, total) == Some(Tensor(BF16, e.tensor.shape, offset, offset + Size(e.tensor)))
  {
    TensorJsonReads(e.tensor.shape, offset, offset + Size(e.tensor), total);
  }

  /** The ranges of the new header, in header order, are one unbroken chain over the new payload. */
  lemma {:induction false} NewRangesChain(entries: seq<Entry>, n: nat)
    requires Keepable(entries) && n <= |entries|
    ensures var r := RangesOf(NewFields(entries)[..n], TotalSize(entries));
      Chain(r, 0, TotalSize(entries[..n])) && forall x :: x in r ==> x.start <= x.end
  {
    hide NewFields, ReadTensor;
    var fields, total := NewFields(entries), TotalSize(entries);
    if n > 0 {
      NewRangesChain(entries, n - 1);
      NewFieldReads(entries, n - 1);
      NewTensorRange(entries, n);
      var t := NewTensor(entries, n - 1);
      hide RangesOf, TotalSize, NewTensor;
      RangesSnoc(fields, n, total, t);
      ChainSnoc(RangesOf(fields[..n - 1], total), 0, Range(t.start, t.end));
    }
  }

  lemma NewTensorRange(entries: seq<Entry>, n: nat)
    requires Keepable(entries) && 0 < n <= |entries|
    ensures var t := NewTensor(entries, n - 1);
      t.start == TotalSize(entries[..n - 1]) && t.end == TotalSize(entries[..n]) && t.start <= t.end
  {
    assert entries[..n][..n - 1] == entries[..n - 1];
    assert entries[n - 1] in entries;
  }

  lemma RangesSnoc(fields: seq<Member>, n: nat, total: nat, t: Tensor)
    requires 0 < n <= |fields| && fields[n - 1].name != METADATA && ReadTensor(fields[n - 1].value, total) == Some(t)
    ensures RangesOf(fields[..n], total) == RangesOf(fields[..n - 1], total) + [Range(t.start, t.end)]
  {
    hide ReadTensor;
    assert fields[..n][..n - 1] == fields[..n - 1];
  }

  lemma {:induction false} ChainSnoc(ranges: seq<Range>, from: nat, last: Range)
    requires Chain(ranges, from, last.start)
    ensures Chain(ranges + [last], from, last.end)
  {
    if ranges != [] {
      ChainSnoc(ranges[1..], ranges[0].end, last);
      assert (ranges + [last])[1..] == ranges[1..] + [last];
    }
  }

  /** A file of the new layout. */
  ghost function NewFile(source: Bytes, base: nat, entries: seq<Entry>): Bytes
    requires InFile(entries, source, base) && |EncodedHeader(entries)| < TWO_64
  {
    U64(|EncodedHeader(entries)|) + EncodedHeader(entries) + PayloadOf(source, base, entries)
  }

  lemma EncodedLoads(entries: seq<Entry>)
    requires Keepable(entries)
    ensures Loads(EncodedHeader(entries)) == Some(Obj(NewFields(entries)))
    ensures |EncodedHeader(entries)| >= 2
  {
    hide ReadTensor, NewFields, Loads, TotalSize;
    var fields := NewFields(entries);
    forall i | 0 <= i < |fields|
      ensures fields[i].name == entries[i].name && Printable(fields[i].value)
    {
      NewFieldReads(entries, i);
    }
    assert Printable(Obj(fields));
    LoadsPrinted(Obj(fields), (0 - |Print(Obj(fields))|) % 8);
  }

  lemma NewFileParts(source: Bytes, base: nat, entries: seq<Entry>)
    requires InFile(entries, source, base) && |EncodedHeader(entries)| < TWO_64
    ensures var file, n := NewFile(source, base, entries), |EncodedHeader(entries)|;
      && |file| == 8 + n + TotalSize(entries)
      && HeaderLength(file) == n
      && file[8..8 + n] == EncodedHeader(entries)
      && file[8 + n..] == PayloadOf(source, base, entries)
  {
    var file, n := NewFile(source, base, entries), |EncodedHeader(entries)|;
    PayloadLength(source, base, entries);
    U64RoundTrip(n);
    assert file[..8] == U64(n);
  }

  /** The new file is accepted by the reader exactly when its header fits the reader's bound. */
  lemma NewFileReads(source: Bytes, base: nat, entries: seq<Entry>)
    requires Keepable(entries) && InFile(entries, source, base) && |entries| <= MAX_NAMES
    requires |EncodedHeader(entries)| < TWO_64 && TotalSize(entries) <= MAX_OUTPUT
    ensures WellFormed(NewFile(source, base, entries)) <==> |EncodedHeader(entries)| <= MAX_HEADER
    ensures |EncodedHeader(entries)| <= MAX_HEADER ==>
      HeaderFields(NewFile(source, base, entries)) == Some(NewFields(entries)) &&
      HeaderLength(NewFile(source, base, entries)) == |EncodedHeader(entries)| &&
      Payload(NewFile(source, base, entries)) == TotalSize(entries)
  {
    NewFileParts(source, base, entries);
    EncodedLoads(entries);
    NewFieldsTile(entries);
    ReadsWhole(NewFile(source, base, entries), |EncodedHeader(entries)|, NewFields(entries), TotalSize(entries));
    hide *;
  }

  /** A file whose header loads and whose tensors tile the rest is refused only for the header's length. */
  lemma ReadsWhole(file: Bytes, n: nat, fields: seq<Member>, payload: nat)
    requires |file| == 8 + n + payload && n >= 2 && HeaderLength(file) == n && payload <= MAX_OUTPUT
    requires Loads(file[8..8 + n]) == Some(Obj(fields)) && |fields| <= MAX_NAMES
    requires TensorFields(fields, payload) && Tiles(RangesOf(fields, payload), payload)
    ensures WellFormed(file) <==> n <= MAX_HEADER
    ensures n <= MAX_HEADER ==> HeaderFields(file) == Some(fields) && Payload(file) == payload
  {
    hide Loads, HeaderLength, TensorFields, Tiles, RangesOf;
  }

  lemma NewFieldsTile(entries: seq<Entry>)
    requires Keepable(entries)
    ensures TensorFields(NewFields(entries), TotalSize(entries))
    ensures Tiles(RangesOf(NewFields(entries), TotalSize(entries)), TotalSize(entries))
  {
    hide NewFields, TotalSize, ReadTensor, RangesOf;
    var fields, total := NewFields(entries), TotalSize(entries);
    forall m | m in fields
      ensures ReadTensor(m.value, total).Some?
    {
      var i :| 0 <= i < |fields| && fields[i] == m;
      NewFieldReads(entries, i);
    }
    NewRangesChain(entries, |entries|);
    assert fields[..|entries|] == fields && entries[..|entries|] == entries;
    ChainTiles(RangesOf(fields, total), 0, total);
  }

  // ---------- reading in short chunks ----------

  /** An open file: each read returns some bytes from the position, at most as many as asked, and
      none only at the end of the file. How short a read falls is not determined. */
  class Reader {
    const data: Bytes
    var pos: nat

    constructor (data: Bytes)
      ensures this.data == data && pos == 0
    {
      this.data := data;
      pos := 0;
    }

    method Seek(position: nat)
      modifies this
      ensures pos == position
    {
      pos := position;
    }

    method Read(limit: nat) returns (chunk: Bytes)
      modifies this
      ensures |chunk| <= limit && pos == old(pos) + |chunk|
      ensures chunk != [] ==> pos <= |data| && chunk == data[old(pos)..pos]
      ensures chunk == [] <==> limit == 0 || old(pos) >= |data|
    {
      if limit == 0 || pos >= |data| {
        return [];
      }
      var n: nat :| 1 <= n <= limit && pos + n <= |data|;
      chunk := data[pos..pos + n];
      pos := pos + n;
    }
  }

  /** Reads exactly n bytes from a position, chunk by chunk; None when the file ends too early. */
  method ReadFully(reader: Reader, position: nat, n: nat) returns (r: Option<Bytes>)
    modifies reader
    ensures r.Some? <==> n == 0 || position + n <= |reader.data|
    ensures r.Some? ==> if n == 0 then r.value == [] else r.value == reader.data[position..position + n]
  {
    reader.Seek(position);
    var remaining, copied: Bytes := n, [];
    while remaining > 0
      invariant remaining >= 0 && |copied| + remaining == n && reader.pos == position + |copied|
      invariant copied != [] ==>
        position + |copied| <= |reader.data| && copied == reader.data[position..position + |copied|]
    {
      var chunk := reader.Read(if remaining < CHUNK then remaining else CHUNK);
      if chunk == [] {
        return None;
      }
      copied := copied + chunk;
      remaining := remaining - |chunk|;
    }
    return Some(copied);
  }

  // ---------- the build ----------

  datatype Record<+D> = Record(name: Name, shape: seq<nat>, bytes: nat, digest: D)

  datatype Artifact<+D> = Artifact(file: Bytes, records: seq<Record<D>>, tensorBytes: nat, parameters: nat)

  datatype BuildError =
    | BadSource(error: Error)
    | NotTextBf16
    | OutputTooLarge
    | HeaderUnpackable
    | TruncatedPayload
    | BadDerived(error: Error)
    | TruncatedDerived
    | DerivedDiffers

  ghost predicate Distinct(entries: seq<Entry>) {
    KeysDistinct((e: Entry) => e.name, entries)
  }

  lemma SortDistinct(entries: seq<Entry>)
    requires Distinct(entries)
    ensures Distinct(SortEntries(entries))
    ensures forall x :: x in SortEntries(entries) <==> x in entries
    ensures |SortEntries(entries)| == |entries|
  {
    SortKeeps(ByName, entries);
    KeysPermuted((e: Entry) => e.name, entries, SortEntries(entries));
  }

  /** A retained entry as the source's header describes it. */
  ghost predicate Described(e: Entry, payload: nat) {
    && PREFIX <= e.name && e.name != METADATA
    && e.tensor.start <= e.tensor.end <= payload && |e.tensor.shape| <= MAX_DIMENSIONS
    && DtypeBytes(e.tensor.dtype).Some?
    && e.tensor.end - e.tensor.start == Product(e.tensor.shape) * DtypeBytes(e.tensor.dtype).value
  }

  lemma RetainedFacts(fields: seq<Member>, payload: nat)
    requires TensorFields(fields, payload)
    ensures forall e :: e in Retained(fields, payload) ==> Described(e, payload)
    ensures UniqueNames(fields) ==> Distinct(Retained(fields, payload))
  {
    forall e | e in Retained(fields, payload)
      ensures Described(e, payload)
    {
      var m :| m in fields && TextField(m, payload, e);
      TextDescribed(m, payload, e);
    }
    if UniqueNames(fields) { RetainedDistinct(fields, payload); }
  }

  lemma TextDescribed(m: Member, payload: nat, e: Entry)
    requires TextField(m, payload, e)
    ensures Described(e, payload)
  {
    PrefixIsNotMetadata(m.name);
    hide ReadTensor, Product, DtypeBytes;
  }

  lemma {:induction false} RetainedDistinct(fields: seq<Member>, payload: nat)
    requires TensorFields(fields, payload) && UniqueNames(fields)
    ensures Distinct(Retained(fields, payload))
  {
    if fields != [] {
      RetainedDistinct(fields[1..], payload);
      var rest := Retained(fields[1..], payload);
      forall e | e in rest
        ensures e.name != fields[0].name
      {
        var m :| m in fields[1..] && TextField(m, payload, e);
        var i :| 0 <= i < |fields[1..]| && fields[1..][i] == m;
        assert fields[i + 1] == m;
      }
      hide ReadTensor, TextEntry, TextField, TensorFields, UniqueNames;
      DistinctCons(fields[0].name, rest);
    }
  }

  lemma DistinctCons(name: Name, rest: seq<Entry>)
    requires Distinct(rest) && forall e :: e in rest ==> e.name != name
    ensures forall h: Entry :: h.name == name ==> Distinct([h] + rest)
  {
    forall h: Entry | h.name == name
      ensures Distinct([h] + rest)
    {
      var all := [h] + rest;
      assert forall j :: 1 <= j < |all| ==> all[j] == rest[j - 1] && rest[j - 1] in rest;
    }
  }

  /** The reader's objects never repeat a name. */
  lemma FieldsUnique(file: Bytes)
    requires HeaderFields(file).Some?
    ensures UniqueNames(HeaderFields(file).value)
  {
  }

  /** The tensors the build keeps, in the order it writes them. */
  ghost function KeptOf(source: Bytes): (r: seq<Entry>)
    requires WellFormed(source)
    ensures Distinct(r) && |r| <= MAX_NAMES
    ensures forall e :: e in r ==> Described(e, Payload(source))
    ensures forall e :: e in r <==> TextEntry(HeaderFields(source).value, Payload(source), e)
  {
    var fields, payload := HeaderFields(source).value, Payload(source);
    FieldsUnique(source);
    RetainedFacts(fields, payload);
    SortDistinct(Retained(fields, payload));
    SortEntries(Retained(fields, payload))
  }

  ghost predicate AllBf16(entries: seq<Entry>) {
    forall e :: e in entries ==> e.tensor.dtype == BF16
  }

  /** What a source must satisfy for the build to go through. The last condition is the one a caller
      may trip over: names are printed as ASCII, so the new header can outgrow the reader's bound. */
  ghost predicate Buildable(source: Bytes) {
    WellFormed(source) &&
    var kept := KeptOf(source);
    kept != [] && AllBf16(kept) && TotalSize(kept) <= MAX_OUTPUT && Fits(kept)
  }

  /** Where a file's payload starts, how long it is, and the file itself. */
  datatype Body = Body(file: Bytes, base: nat, payload: nat)

  function BodyOf(file: Bytes): Body
    requires HeaderFields(file).Some?
  {
    Body(file, HeaderLength(file) + 8, Payload(file))
  }

  /** Header entry m of the derived file describes source tensor e: same name and shape, type BF16,
      and the bytes it points to are the source's bytes. */
  ghost predicate SameTensor(source: Body, derived: Body, e: Entry, m: Member) {
    var t := ReadTensor(m.value, derived.payload);
    && m.name == e.name
    && t.Some? && t.value.dtype == BF16 && t.value.shape == e.tensor.shape
    && derived.base + t.value.end <= |derived.file|
    && e.tensor.start <= e.tensor.end && source.base + e.tensor.end <= |source.file|
    && TensorBytes(derived.file, derived.base, t.value) == TensorBytes(source.file, source.base, e.tensor)
  }

  ghost predicate SameTensors(source: Body, derived: Body, kept: seq<Entry>, fields: seq<Member>) {
    |fields| == |kept| && forall i :: 0 <= i < |kept| ==> SameTensor(source, derived, kept[i], fields[i])
  }

  lemma KeptKeepable(source: Bytes)
    requires WellFormed(source) && AllBf16(KeptOf(source))
    ensures Keepable(KeptOf(source)) && InFile(KeptOf(source), source, HeaderLength(source) + 8)
  {
    var kept := KeptOf(source);
    forall e | e in kept
      ensures e.tensor.end - e.tensor.start == Product(e.tensor.shape) * 2
    {
      assert Described(e, Payload(source)) && e.tensor.dtype == BF16;
    }
  }

  predicate Packs(kept: seq<Entry>)
    requires forall e :: e in kept ==> e.tensor.start <= e.tensor.end
  {
    |EncodedHeader(kept)| < TWO_64
  }

  /** The new header stays within the reader's bound. */
  predicate Fits(kept: seq<Entry>)
    requires forall e :: e in kept ==> e.tensor.start <= e.tensor.end
    ensures Fits(kept) ==> Packs(kept)
  {
    |EncodedHeader(kept)| <= MAX_HEADER
  }

  ghost predicate IsNewFile(source: Body, kept: seq<Entry>, file: Bytes) {
    InFile(kept, source.file, source.base) && Packs(kept) && file == NewFile(source.file, source.base, kept)
  }

  /** The rewritten file reads back as the new header, each entry with its source tensor's bytes. */
  ghost predicate Rewritten(source: Body, kept: seq<Entry>, file: Bytes) {
    && (forall e :: e in kept ==> e.tensor.start <= e.tensor.end)
    && WellFormed(file) && HeaderFields(file) == Some(NewFields(kept)) && Payload(file) == TotalSize(kept)
    && SameTensors(source, BodyOf(file), kept, NewFields(kept))
  }

  lemma NewFileAccepted(source: Body, kept: seq<Entry>, file: Bytes)
    requires Keepable(kept) && IsNewFile(source, kept, file) && |kept| <= MAX_NAMES && TotalSize(kept) <= MAX_OUTPUT
    ensures WellFormed(file) <==> Fits(kept)
  {
    NewFileReads(source.file, source.base, kept);
  }

  /** The file in the new layout, when its header fits, is accepted and describes every kept tensor. */
  lemma NewFileRewritten(source: Body, kept: seq<Entry>, file: Bytes)
    requires Keepable(kept) && IsNewFile(source, kept, file) && |kept| <= MAX_NAMES && TotalSize(kept) <= MAX_OUTPUT
    requires Fits(kept)
    ensures Rewritten(source, kept, file)
  {
    NewBody(source, kept, file);
    NewTensorsSame(source, kept);
    hide WellFormed, NewFields, Keepable, RangesOf, NewFile, SameTensors, EncodedHeader, TotalSize, InFile, BodyOf;
  }

  /** The rewritten file as the reader takes it apart. */
  lemma NewBody(source: Body, kept: seq<Entry>, file: Bytes)
    requires Keepable(kept) && IsNewFile(source, kept, file) && |kept| <= MAX_NAMES && TotalSize(kept) <= MAX_OUTPUT
    requires Fits(kept)
    ensures forall e :: e in kept ==> e.tensor.start <= e.tensor.end
    ensures WellFormed(file) && HeaderFields(file) == Some(NewFields(kept)) && Payload(file) == TotalSize(kept)
    ensures BodyOf(file) == Body(file, |EncodedHeader(kept)| + 8, TotalSize(kept))
  {
    NewFileReads(source.file, source.base, kept);
    assert forall e :: e in kept ==> e.tensor.start <= e.tensor.end;
    hide WellFormed, NewFields, Keepable, RangesOf, NewFile, EncodedHeader, TotalSize, InFile, HeaderFields,
      HeaderLength, Payload;
  }

  lemma NewTensorsSame(source: Body, kept: seq<Entry>)
    requires Keepable(kept) && InFile(kept, source.file, source.base) && |EncodedHeader(kept)| < TWO_64
    ensures var derived := Body(NewFile(source.file, source.base, kept), |EncodedHeader(kept)| + 8, TotalSize(kept));
      SameTensors(source, derived, kept, NewFields(kept))
  {
    var derived := Body(NewFile(source.file, source.base, kept), |EncodedHeader(kept)| + 8, TotalSize(kept));
    forall i | 0 <= i < |kept|
      ensures SameTensor(source, derived, kept[i], NewFields(kept)[i])
    {
      assert kept[i] in kept;
      NewFieldReads(kept, i);
      NewBytes(source.file, source.base, kept, i);
    }
  }

  /** Tensor i of the new file holds the bytes of source tensor i. */
  lemma NewBytes(source: Bytes, sourceBase: nat, kept: seq<Entry>, i: nat)
    requires InFile(kept, source, sourceBase) && |EncodedHeader(kept)| < TWO_64 && i < |kept|
    ensures var file, base, t := NewFile(source, sourceBase, kept), |EncodedHeader(kept)| + 8, NewTensor(kept, i);
      base + t.end <= |file| && TensorBytes(file, base, t) == TensorBytes(source, sourceBase, kept[i].tensor)
  {
    var file, base, t := NewFile(source, sourceBase, kept), |EncodedHeader(kept)| + 8, NewTensor(kept, i);
    NewFileParts(source, sourceBase, kept);
    PayloadAt(source, sourceBase, kept, i);
    assert file[base + t.start..base + t.end] == file[base..][t.start..t.end];
  }

  /** Parameters are half the tensor bytes: every kept value takes two. */
  ghost function Parameters(entries: seq<Entry>): nat {
    if entries == [] then 0 else Parameters(entries[..|entries| - 1]) + Product(entries[|entries| - 1].tensor.shape)
  }

  lemma {:induction false} ParametersHalveBytes(entries: seq<Entry>)
    requires Keepable(entries)
    ensures Parameters(entries) * 2 == TotalSize(entries)
  {
    if entries != [] {
      assert Keepable(entries[..|entries| - 1]);
      assert entries[|entries| - 1] in entries;
      ParametersHalveBytes(entries[..|entries| - 1]);
    }
  }

  function RecordOf<D>(hash: Bytes -> D, source: Bytes, base: nat, e: Entry): Record<D>
    requires e.tensor.start <= e.tensor.end && base + e.tensor.end <= |source|
  {
    Record(e.name, e.tensor.shape, Size(e.tensor), hash(TensorBytes(source, base, e.tensor)))
  }

  /** One record per kept tensor, digesting the source's bytes. */
  ghost predicate RecordsFor<D>(hash: Bytes -> D, source: Body, kept: seq<Entry>, records: seq<Record<D>>)
    requires InFile(kept, source.file, source.base)
  {
    |records| == |kept| && forall i :: 0 <= i < |kept| ==>
      kept[i] in kept && records[i] == RecordOf(hash, source.file, source.base, kept[i])
  }

  /** Copies the kept tensors one after the other behind the header already written. */
  method CopyTensors<D>(hash: Bytes -> D, source: Bytes, base: nat, kept: seq<Entry>, header: Bytes)
    returns (r: Option<(Bytes, seq<Record<D>>)>)
    requires InFile(kept, source, base)
    ensures r.Some? && r.value.0 == header + PayloadOf(source, base, kept)
    ensures |r.value.1| == |kept|
    ensures forall i :: 0 <= i < |kept| ==> r.value.1[i] == RecordOf(hash, source, base, kept[i])
  {
    var reader := new Reader(source);
    var written, records: seq<Record<D>> := header, [];
    for i := 0 to |kept|
      invariant written == header + PayloadOf(source, base, kept[..i])
      invariant |records| == i && forall k :: 0 <= k < i ==> records[k] == RecordOf(hash, source, base, kept[k])
    {
      var t := kept[i].tensor;
      assert kept[i] in kept && kept[..i + 1][..i] == kept[..i];
      var copied := ReadFully(reader, base + t.start, t.end - t.start);
      if copied == None {
        return None;
      }
      assert copied.value == TensorBytes(source, base, t);
      written := written + copied.value;
      records := records + [Record(kept[i].name, t.shape, t.end - t.start, hash(copied.value))];
    }
    assert kept[..|kept|] == kept;
    return Some((written, records));
  }

  /** Record r names header entry m, a tensor inside the file. */
  ghost predicate RecordPlaced<D>(derived: Body, m: Member, r: Record<D>) {
    var t := ReadTensor(m.value, derived.payload);
    m.name == r.name && t.Some? && derived.base + t.value.end <= |derived.file|
  }

  /** The record's digest is that of the bytes the header entry points to. */
  ghost predicate RecordHolds<D>(hash: Bytes -> D, derived: Body, m: Member, r: Record<D>)
    requires RecordPlaced(derived, m, r)
  {
    r.digest == hash(TensorBytes(derived.file, derived.base, ReadTensor(m.value, derived.payload).value))
  }

  ghost predicate Placed<D>(derived: Body, fields: seq<Member>, records: seq<Record<D>>) {
    |records| == |fields| && forall i :: 0 <= i < |records| ==> RecordPlaced(derived, fields[i], records[i])
  }

  ghost predicate Hold<D>(hash: Bytes -> D, derived: Body, fields: seq<Member>, records: seq<Record<D>>)
    requires Placed(derived, fields, records)
  {
    forall i :: 0 <= i < |records| ==> RecordHolds(hash, derived, fields[i], records[i])
  }

  /** Re-reads every tensor of the derived file: passes exactly when every digest is the recorded one. */
  method Recheck<D(==)>(hash: Bytes -> D, file: Bytes, header: Header, records: seq<Record<D>>)
    returns (failure: Option<BuildError>)
    requires header.base <= |file| && UniqueNames(header.fields)
    requires Placed(Body(file, header.base, |file| - header.base), header.fields, records)
    ensures failure == None <==> Hold(hash, Body(file, header.base, |file| - header.base), header.fields, records)
  {
    var reader := new Reader(file);
    ghost var derived := Body(file, header.base, |file| - header.base);
    for i := 0 to |records|
      invariant forall k :: 0 <= k < i ==> RecordHolds(hash, derived, header.fields[k], records[k])
    {
      assert RecordPlaced(derived, header.fields[i], records[i]);
      GetUnique(header.fields, i);
      var tensor := ReadTensor(Get(header.fields, records[i].name).value, |file| - header.base).value;
      var copied := ReadFully(reader, header.base + tensor.start, tensor.end - tensor.start);
      if copied == None {
        return Some(TruncatedDerived);
      }
      assert copied.value == TensorBytes(file, header.base, tensor);
      if hash(copied.value) != records[i].digest {
        assert !RecordHolds(hash, derived, header.fields[i], records[i]);
        return Some(DerivedDiffers);
      }
    }
    return None;
  }

  lemma {:induction false} GetUnique(fields: seq<Member>, i: nat)
    requires UniqueNames(fields) && i < |fields|
    ensures Get(fields, fields[i].name) == Some(fields[i].value)
  {
    if i > 0 { GetUnique(fields[1..], i - 1); }
  }

  /** What the re-check compares is in place once the file is rewritten. */
  lemma RecordsPlaced<D>(hash: Bytes -> D, source: Body, kept: seq<Entry>, file: Bytes, records: seq<Record<D>>)
    requires Rewritten(source, kept, file) && InFile(kept, source.file, source.base)
      && RecordsFor(hash, source, kept, records)
    ensures BodyOf(file) == Body(file, HeaderLength(file) + 8, |file| - (HeaderLength(file) + 8))
    ensures UniqueNames(HeaderFields(file).value) && Placed(BodyOf(file), HeaderFields(file).value, records)
  {
    hide WellFormed, NewFields, RangesOf;
    FieldsUnique(file);
    var fields := HeaderFields(file).value;
    forall i | 0 <= i < |records|
      ensures RecordPlaced(BodyOf(file), fields[i], records[i])
    {
      assert SameTensor(source, BodyOf(file), kept[i], fields[i]);
    }
  }

  /** The bytes written are the bytes recorded, so the re-check has nothing to find. */
  lemma RecordsHold<D>(hash: Bytes -> D, source: Body, kept: seq<Entry>, file: Bytes, records: seq<Record<D>>)
    requires Rewritten(source, kept, file) && InFile(kept, source.file, source.base)
      && RecordsFor(hash, source, kept, records)
    requires Placed(BodyOf(file), HeaderFields(file).value, records)
    ensures Hold(hash, BodyOf(file), HeaderFields(file).value, records)
  {
    hide WellFormed, NewFields, RangesOf;
    var fields := HeaderFields(file).value;
    forall i | 0 <= i < |records|
      ensures RecordHolds(hash, BodyOf(file), fields[i], records[i])
    {
      assert SameTensor(source, BodyOf(file), kept[i], fields[i]);
    }
  }

  /** Writes the new header and the tensors; the length field must be able to carry the header's length. */
  method Write<D>(hash: Bytes -> D, source: Body, kept: seq<Entry>)
      returns (r: Result<(Bytes, seq<Record<D>>), BuildError>)
    requires InFile(kept, source.file, source.base)
    ensures r.Success? <==> Packs(kept)
    ensures r.Success? ==> IsNewFile(source, kept, r.value.0) && RecordsFor(hash, source, kept, r.value.1)
    ensures r.Failure? ==> r.error == HeaderUnpackable
  {
    var encoded := EncodedHeader(kept);
    if |encoded| >= TWO_64 {
      return Failure(HeaderUnpackable);
    }
    var copied := CopyTensors(hash, source.file, source.base, kept, U64(|encoded|) + encoded);
    if copied == None {
      return Failure(TruncatedPayload);
    }
    return Success(copied.value);
  }

  /** Writes the file, then reads it back. Only the reader's header bound can stop it. */
  method WriteAndRecheck<D(==)>(hash: Bytes -> D, source: Body, kept: seq<Entry>)
    returns (r: Result<(Bytes, seq<Record<D>>), BuildError>)
    requires Keepable(kept) && InFile(kept, source.file, source.base)
    requires |kept| <= MAX_NAMES && TotalSize(kept) <= MAX_OUTPUT
    ensures r.Success? <==> Fits(kept)
    ensures r.Success? ==> Rewritten(source, kept, r.value.0) && RecordsFor(hash, source, kept, r.value.1)
    ensures r.Failure? ==> r.error.HeaderUnpackable? || r.error.BadDerived?
  {
    hide WellFormed, Keepable, Fits, Packs, IsNewFile, Rewritten, RecordsFor;
    var written := Write(hash, source, kept);
    if written.Failure? {
      return Failure(written.error);
    }
    var (file, records) := written.value;
    var checked := ReadHeader(file);
    NewFileAccepted(source, kept, file);
    if checked.Failure? {
      return Failure(BadDerived(checked.error));
    }
    NewFileRewritten(source, kept, file);
    RecordsPlaced(hash, source, kept, file, records);
    var failure := Recheck(hash, file, checked.value, records);
    if failure.Some? {
      r := Failure(failure.value);
      RecordsHold(hash, source, kept, file, records);
      return;
    }
    return Success((file, records));
  }

  /** The bytes of a tensor, counted from the end of the header. */
  ghost function Stored(file: Bytes, t: Tensor): Bytes
    requires HeaderFields(file).Some? && t.start <= t.end <= Payload(file)
  {
    var base := HeaderLength(file) + 8;
    file[base + t.start..base + t.end]
  }

  /** Header entries of two files describe one tensor: one type and shape, and the same bytes. */
  ghost predicate SameField(source: Bytes, m: Member, file: Bytes, n: Member)
    requires HeaderFields(source).Some? && HeaderFields(file).Some?
  {
    var a, b := ReadTensor(m.value, Payload(source)), ReadTensor(n.value, Payload(file));
    && m.name == n.name && a.Some? && b.Some?
    && a.value.dtype == b.value.dtype && a.value.shape == b.value.shape
    && Stored(file, b.value) == Stored(source, a.value)
  }

  ghost predicate TextName(name: Name) {
    Ascii("language_model.") <= name
  }

  /** Every text tensor of the source is in the file under its name, with its shape and its bytes, and the
      file holds nothing else and no name twice. */
  ghost predicate Carries(source: Bytes, file: Bytes) {
    HeaderFields(source).Some? && HeaderFields(file).Some? &&
    var was, now := HeaderFields(source).value, HeaderFields(file).value;
    && UniqueNames(now)
    && (forall m :: m in was && TextName(m.name) ==> exists n :: n in now && SameField(source, m, file, n))
    && (forall n :: n in now ==> exists m :: m in was && TextName(m.name) && m.name == n.name)
  }

  lemma TextCarried(source: Bytes, file: Bytes)
    requires WellFormed(source) && AllBf16(KeptOf(source)) && Rewritten(BodyOf(source), KeptOf(source), file)
    ensures Carries(source, file)
  {
    var was, now, kept := HeaderFields(source).value, HeaderFields(file).value, KeptOf(source);
    FieldsUnique(file);
    forall i | 0 <= i < |kept|
      ensures SameTensor(BodyOf(source), BodyOf(file), kept[i], now[i]) && kept[i].tensor.dtype == BF16
      ensures TextEntry(was, Payload(source), kept[i])
    {
      assert kept[i] in kept;
    }
    AllCarried(source, file, was, now, kept);
    NothingElse(source, file, was, now, kept);
    hide KeptOf, WellFormed, Rewritten, UniqueNames;
  }

  lemma AllCarried(source: Bytes, file: Bytes, was: seq<Member>, now: seq<Member>, kept: seq<Entry>)
    requires WellFormed(source) && WellFormed(file) && was == HeaderFields(source).value && kept == KeptOf(source)
    requires |now| == |kept|
    requires forall i :: 0 <= i < |kept| ==>
      SameTensor(BodyOf(source), BodyOf(file), kept[i], now[i]) && kept[i].tensor.dtype == BF16
    ensures forall m :: m in was && TextName(m.name) ==> exists n :: n in now && SameField(source, m, file, n)
  {
    assert HeaderFields(source).Some? && HeaderFields(file).Some?;
    hide KeptOf, WellFormed, SameTensor, SameField, HeaderFields, HeaderLength, BodyOf, Payload;
    forall m | m in was && TextName(m.name)
      ensures exists n :: n in now && SameField(source, m, file, n)
    {
      var i := TextRead(source, m, kept);
      FieldCarried(source, m, file, now[i], kept[i]);
      assert now[i] in now;
    }
  }

  lemma NothingElse(source: Bytes, file: Bytes, was: seq<Member>, now: seq<Member>, kept: seq<Entry>)
    requires WellFormed(source) && WellFormed(file) && |now| == |kept|
    requires forall i :: 0 <= i < |kept| ==>
      SameTensor(BodyOf(source), BodyOf(file), kept[i], now[i]) && TextEntry(was, Payload(source), kept[i])
    ensures forall n :: n in now ==> exists m :: m in was && TextName(m.name) && m.name == n.name
  {
    assert HeaderFields(source).Some? && HeaderFields(file).Some?;
    hide WellFormed, SameTensor, HeaderFields, HeaderLength, BodyOf, Payload, ReadTensor;
    forall n | n in now
      ensures exists m :: m in was && TextName(m.name) && m.name == n.name
    {
      var i :| 0 <= i < |now| && now[i] == n;
      NameCarried(source, file, kept[i], n);
      var m :| m in was && TextField(m, Payload(source), kept[i]);
    }
  }

  lemma NameCarried(source: Bytes, file: Bytes, e: Entry, n: Member)
    requires WellFormed(source) && WellFormed(file) && SameTensor(BodyOf(source), BodyOf(file), e, n)
    ensures n.name == e.name
  {
  }

  /** A text tensor of the source is among those kept. */
  lemma TextRead(source: Bytes, m: Member, kept: seq<Entry>) returns (i: nat)
    requires WellFormed(source) && m in HeaderFields(source).value && TextName(m.name) && kept == KeptOf(source)
    ensures i < |kept| && TextField(m, Payload(source), kept[i])
  {
    PrefixIsNotMetadata(m.name);
    var e := Entry(m.name, ReadTensor(m.value, Payload(source)).value);
    assert TextField(m, Payload(source), e);
    assert TextEntry(HeaderFields(source).value, Payload(source), e);
    assert e in kept;
    i :| 0 <= i < |kept| && kept[i] == e;
  }

  lemma FieldCarried(source: Bytes, m: Member, file: Bytes, n: Member, e: Entry)
    requires WellFormed(source) && WellFormed(file) && TextField(m, Payload(source), e) && e.tensor.dtype == BF16
    requires SameTensor(BodyOf(source), BodyOf(file), e, n)
    ensures SameField(source, m, file, n)
  {
    hide WellFormed, HeaderFields, HeaderLength, ReadTensor;
  }

  /** Builds the derived file. It succeeds exactly for buildable sources, and then the result reads
      back and keeps every text tensor byte for byte; no short read can truncate or alter it. */
  method BuildTextArtifact<D(==)>(hash: Bytes -> D, source: Bytes) returns (r: Result<Artifact<D>, BuildError>)
    ensures r.Success? <==> Buildable(source)
    ensures r.Success? ==> Rewritten(BodyOf(source), KeptOf(source), r.value.file)
    ensures r.Success? ==> Carries(source, r.value.file)
    ensures r.Success? ==> r.value.parameters * 2 == r.value.tensorBytes == TotalSize(KeptOf(source))
    ensures r.Success? ==> InFile(KeptOf(source), source, BodyOf(source).base) &&
                           RecordsFor(hash, BodyOf(source), KeptOf(source), r.value.records)
    ensures r.Failure? ==> r.error !in {TruncatedPayload, TruncatedDerived, DerivedDiffers}
    ensures r.Failure? && r.error.BadDerived? ==> WellFormed(source) && !Fits(KeptOf(source))
  {
    var accepted := ReadHeader(source);
    hide WellFormed, Keepable, Fits, Packs, Rewritten, RecordsFor;
    if accepted.Failure? {
      return Failure(BadSource(accepted.error));
    }
    var Header(fields, base) := accepted.value;
    TensorsKnown(source);
    var kept := SortEntries(Retained(fields, |source| - base));
    assert kept == KeptOf(source);
    if kept == [] || exists i | 0 <= i < |kept| :: kept[i].tensor.dtype != BF16 {
      return Failure(NotTextBf16);
    }
    KeptKeepable(source);
    var size := TotalSize(kept);
    if size > MAX_OUTPUT {
      return Failure(OutputTooLarge);
    }
    var written := WriteAndRecheck(hash, BodyOf(source), kept);
    if written.Failure? {
      return Failure(written.error);
    }
    var (file, records) := written.value;
    ShapesRecorded(hash, BodyOf(source), kept, records);
    var parameters := CountParameters(records, kept);
    ParametersHalveBytes(kept);
    TextCarried(source, file);
    return Success(Artifact(file, records, size, parameters));
  }

  lemma TensorsKnown(file: Bytes)
    requires WellFormed(file)
    ensures HeaderFields(file).Some? && TensorFields(HeaderFields(file).value, Payload(file))
  {
  }

  lemma ShapesRecorded<D>(hash: Bytes -> D, source: Body, kept: seq<Entry>, records: seq<Record<D>>)
    requires InFile(kept, source.file, source.base) && RecordsFor(hash, source, kept, records)
    ensures |records| == |kept| && forall i :: 0 <= i < |kept| ==> records[i].shape == kept[i].tensor.shape
  {
  }

  method CountParameters<D>(records: seq<Record<D>>, ghost kept: seq<Entry>) returns (parameters: nat)
    requires |records| == |kept| && forall i :: 0 <= i < |kept| ==> records[i].shape == kept[i].tensor.shape
    ensures parameters == Parameters(kept)
  {
    parameters := 0;
    for i := 0 to |records|
      invariant parameters == Parameters(kept[..i])
    {
      assert kept[..i + 1][..i] == kept[..i];
      parameters := parameters + Product(records[i].shape);
    }
    assert kept[..|kept|] == kept;
  }
}
