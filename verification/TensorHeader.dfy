/** Reading the header of a tensor file: which files are accepted, and why acceptance means that the
    tensors tile the payload. */
module TensorHeader {
  import opened Basics
  import opened Sorting
  import opened ByteStrings
  import opened Json

  const MAX_HEADER := 1024 * 1024
  const MAX_SOURCE := 2 * 1024 * 1024 * 1024
  const MAX_NAMES := 2001
  const MAX_DIMENSIONS := 8

  datatype Tensor = Tensor(dtype: Name, shape: seq<nat>, start: nat, end: nat)

  datatype Range = Range(start: nat, end: nat)

  function Ascii(s: string): (r: Name)
    requires forall i :: 0 <= i < |s| ==> s[i] as int < 128
    ensures |r| == |s| && forall i :: 0 <= i < |s| ==> r[i] == s[i] as int
  {
    seq(|s|, i requires 0 <= i < |s| => s[i] as int)
  }

  const METADATA: Name := Ascii("__metadata__")
  const DTYPE: Name := Ascii("dtype")
  const SHAPE: Name := Ascii("shape")
  const DATA_OFFSETS: Name := Ascii("data_offsets")
  const BF16: Name := Ascii("BF16")

  function DtypeBytes(dtype: Name): Option<nat> {
    if dtype == BF16 || dtype == Ascii("F16") || dtype == Ascii("I16") then Some(2)
    else if dtype == Ascii("F32") || dtype == Ascii("I32") then Some(4)
    else if dtype == Ascii("F64") || dtype == Ascii("I64") then Some(8)
    else if dtype == Ascii("I8") || dtype == Ascii("U8") || dtype == Ascii("BOOL") then Some(1)
    else None
  }

  function Product(shape: seq<nat>): nat {
    if shape == [] then 1 else shape[0] * Product(shape[1..])
  }

  /** `dict.get` */
  function Get(fields: seq<Member>, name: Name): Option<Json> {
    if fields == [] then None
    else if fields[0].name == name then Some(fields[0].value)
    else Get(fields[1..], name)
  }

  /** A list of integers none of which is negative. */
  function Naturals(items: seq<Json>): Option<seq<nat>> {
    if items == [] then Some([])
    else if !items[0].Int? || items[0].n < 0 then None
    else match Naturals(items[1..])
      case None => None
      case Some(ns) => Some([items[0].n as nat] + ns)
  }

  /** One header entry as a tensor of a payload of the given size, or None where the reader raises. */
  function ReadTensor(v: Json, payload: nat): (r: Option<Tensor>)
    ensures r.Some? ==> r.value.start <= r.value.end <= payload
    ensures r.Some? ==> DtypeBytes(r.value.dtype).Some? && |r.value.shape| <= MAX_DIMENSIONS
    ensures r.Some? ==> r.value.end - r.value.start == Product(r.value.shape) * DtypeBytes(r.value.dtype).value
  {
    if !v.Obj? then None
    else CheckTensor(Get(v.fields, DTYPE), Get(v.fields, SHAPE), Get(v.fields, DATA_OFFSETS), payload)
  }

  /** The checks on an entry's three fields. */
  function CheckTensor(dtype: Option<Json>, shape: Option<Json>, offsets: Option<Json>,
      payload: nat): (r: Option<Tensor>)
    ensures r.Some? ==> r.value.start <= r.value.end <= payload
    ensures r.Some? ==> DtypeBytes(r.value.dtype).Some? && |r.value.shape| <= MAX_DIMENSIONS
    ensures r.Some? ==> r.value.end - r.value.start == Product(r.value.shape) * DtypeBytes(r.value.dtype).value
  {
    if dtype == None || !dtype.value.Str? || DtypeBytes(dtype.value.name) == None then None
    else if shape == None || !shape.value.Arr? || |shape.value.items| > MAX_DIMENSIONS then None
    else if Naturals(shape.value.items) == None then None
    else if offsets == None || !offsets.value.Arr? || |offsets.value.items| != 2 then None
    else if !offsets.value.items[0].Int? || !offsets.value.items[1].Int? then None
    else
      var dims := Naturals(shape.value.items).value;
      var start, end := offsets.value.items[0].n, offsets.value.items[1].n;
      NaturalsLength(shape.value.items);
      if start < 0 || end < start || end > payload then None
      else if end - start != Product(dims) * DtypeBytes(dtype.value.name).value then None
      else Some(Tensor(dtype.value.name, dims, start, end))
  }

  lemma {:induction false} NaturalsLength(items: seq<Json>)
    ensures Naturals(items).Some? ==> |Naturals(items).value| == |items|
  {
    if items != [] { NaturalsLength(items[1..]); }
  }

  // ---------- what the reader asks of an entry, spelled out ----------

  ghost predicate Width(dtype: Name, width: nat) {
    || (width == 8 && dtype in {Ascii("F64"), Ascii("I64")})
    || (width == 4 && dtype in {Ascii("F32"), Ascii("I32")})
    || (width == 2 && dtype in {Ascii("BF16"), Ascii("F16"), Ascii("I16")})
    || (width == 1 && dtype in {Ascii("I8"), Ascii("U8"), Ascii("BOOL")})
  }

  lemma WidthMeans(dtype: Name, width: nat)
    ensures DtypeBytes(dtype) == Some(width) <==> Width(dtype, width)
  {
    NamesApart();
  }

  lemma NamesApart()
    ensures BF16 == Ascii("BF16") && Ascii("F16") != Ascii("F32") && Ascii("F16") != Ascii("F64")
    ensures Ascii("F32") != Ascii("F64") && Ascii("I16") != Ascii("I32") && Ascii("I16") != Ascii("I64")
    ensures Ascii("I32") != Ascii("I64") && Ascii("F16") != Ascii("I16") && Ascii("F16") != Ascii("I32")
    ensures Ascii("F16") != Ascii("I64") && Ascii("F32") != Ascii("I16") && Ascii("F32") != Ascii("I32")
    ensures Ascii("F32") != Ascii("I64") && Ascii("F64") != Ascii("I16") && Ascii("F64") != Ascii("I32")
    ensures Ascii("F64") != Ascii("I64") && Ascii("BF16") != Ascii("BOOL") && Ascii("I8") != Ascii("U8")
  {
    assert Ascii("BF16")[1] == 'F' as int && Ascii("BOOL")[1] == 'O' as int;
    assert Ascii("I8")[0] == 'I' as int && Ascii("U8")[0] == 'U' as int;
    assert Ascii("F16")[0] == 'F' as int && Ascii("I16")[0] == 'I' as int;
    assert Ascii("F16")[1] == '1' as int && Ascii("F32")[1] == '3' as int && Ascii("F64")[1] == '6' as int;
    assert Ascii("I16")[1] == '1' as int && Ascii("I32")[1] == '3' as int && Ascii("I64")[1] == '6' as int;
    assert Ascii("F32")[0] == 'F' as int && Ascii("F64")[0] == 'F' as int;
    assert Ascii("I32")[0] == 'I' as int && Ascii("I64")[0] == 'I' as int;
  }

  /** How many elements a shape has, counted from its last dimension. */
  ghost function Volume(shape: seq<nat>): nat {
    if shape == [] then 1 else Volume(shape[..|shape| - 1]) * shape[|shape| - 1]
  }

  lemma {:induction false} VolumeCons(n: nat, rest: seq<nat>)
    ensures Volume([n] + rest) == n * Volume(rest)
  {
    var shape := [n] + rest;
    if rest == [] {
      assert shape[..0] == [];
    } else {
      var m := |rest| - 1;
      assert shape[..|shape| - 1] == [n] + rest[..m] && shape[|shape| - 1] == rest[m];
      VolumeCons(n, rest[..m]);
      var v := Volume(rest[..m]);
      assert n * v * rest[m] == n * (v * rest[m]);
    }
  }

  lemma {:induction false} ProductIsVolume(shape: seq<nat>)
    ensures Product(shape) == Volume(shape)
  {
    if shape != [] {
      ProductIsVolume(shape[1..]);
      VolumeCons(shape[0], shape[1..]);
      assert shape == [shape[0]] + shape[1..];
    }
  }

  /** The first field of this name has this value. */
  ghost predicate Holds(fields: seq<Member>, name: Name, v: Json) {
    exists i :: 0 <= i < |fields| && fields[i] == Member(name, v) && forall j :: 0 <= j < i ==> fields[j].name != name
  }

  lemma {:induction false} GetMeans(fields: seq<Member>, name: Name, v: Json)
    ensures Get(fields, name) == Some(v) <==> Holds(fields, name, v)
  {
    if fields != [] {
      GetMeans(fields[1..], name, v);
      if Holds(fields[1..], name, v) && fields[0].name != name {
        var i :| 0 <= i < |fields[1..]| && fields[1..][i] == Member(name, v)
          && forall j :: 0 <= j < i ==> fields[1..][j].name != name;
        assert fields[i + 1] == Member(name, v);
        assert forall j :: 0 < j < i + 1 ==> fields[j] == fields[1..][j - 1];
      }
      if i :| 0 < i < |fields| && fields[i] == Member(name, v) && forall j :: 0 <= j < i ==> fields[j].name != name {
        assert fields[1..][i - 1] == Member(name, v);
        assert forall j :: 0 <= j < i - 1 ==> fields[1..][j] == fields[j + 1];
      }
      if fields[0] == Member(name, v) { assert Holds(fields, name, v); }
    }
  }

  ghost predicate AreNumbers(items: seq<Json>, ns: seq<nat>) {
    |items| == |ns| && forall i :: 0 <= i < |items| ==> items[i] == Int(ns[i])
  }

  lemma {:induction false} NaturalsMeans(items: seq<Json>, ns: seq<nat>)
    ensures Naturals(items) == Some(ns) <==> AreNumbers(items, ns)
  {
    if items != [] && ns != [] {
      NaturalsMeans(items[1..], ns[1..]);
      assert ns == [ns[0]] + ns[1..];
      assert forall i :: 0 < i < |items| ==> items[i] == items[1..][i - 1];
      if Naturals(items) == Some(ns) { assert ns[1..] == Naturals(items[1..]).value; }
      if AreNumbers(items, ns) { assert AreNumbers(items[1..], ns[1..]); }
    } else if items != [] {
      assert Naturals(items) != Some([]);
    }
  }

  /** An entry is read as a tensor exactly when it is an object with a known type, a list of at most eight
      dimensions none of which is negative, and two offsets inside the payload that enclose just its elements. */
  ghost predicate Describes(v: Json, payload: nat, t: Tensor) {
    && v.Obj?
    && Holds(v.fields, Ascii("dtype"), Str(t.dtype))
    && (exists sizes :: AreNumbers(sizes, t.shape) && Holds(v.fields, Ascii("shape"), Arr(sizes)))
    && Holds(v.fields, Ascii("data_offsets"), Arr([Int(t.start), Int(t.end)]))
    && |t.shape| <= 8 && t.start <= t.end <= payload
    && exists width :: Width(t.dtype, width) && t.end - t.start == Volume(t.shape) * width
  }

  lemma ReadsDescribed(v: Json, payload: nat, t: Tensor)
    ensures ReadTensor(v, payload) == Some(t) <==> Describes(v, payload, t)
  {
    if v.Obj? {
      var dtype, shape, offsets := Get(v.fields, DTYPE), Get(v.fields, SHAPE), Get(v.fields, DATA_OFFSETS);
      ProductIsVolume(t.shape);
      if CheckTensor(dtype, shape, offsets, payload) == Some(t) {
        CheckedDescribes(v, payload, t);
      }
      if Describes(v, payload, t) {
        DescribedChecks(v, payload, t);
      }
    }
  }

  lemma CheckedDescribes(v: Json, payload: nat, t: Tensor)
    requires v.Obj? && Product(t.shape) == Volume(t.shape)
    requires CheckTensor(Get(v.fields, DTYPE), Get(v.fields, SHAPE), Get(v.fields, DATA_OFFSETS), payload) == Some(t)
    ensures Describes(v, payload, t)
  {
    var shape, offsets := Get(v.fields, SHAPE).value, Get(v.fields, DATA_OFFSETS).value;
    GetMeans(v.fields, DTYPE, Str(t.dtype));
    GetMeans(v.fields, SHAPE, shape);
    GetMeans(v.fields, DATA_OFFSETS, offsets);
    NaturalsMeans(shape.items, t.shape);
    NaturalsLength(shape.items);
    WidthMeans(t.dtype, DtypeBytes(t.dtype).value);
    assert offsets.items == [Int(t.start), Int(t.end)];
    hide Get, Naturals, DtypeBytes, Product, Volume, Width, Holds, AreNumbers;
  }

  lemma DescribedChecks(v: Json, payload: nat, t: Tensor)
    requires Describes(v, payload, t) && Product(t.shape) == Volume(t.shape)
    ensures CheckTensor(Get(v.fields, DTYPE), Get(v.fields, SHAPE), Get(v.fields, DATA_OFFSETS), payload) == Some(t)
  {
    var sizes :| AreNumbers(sizes, t.shape) && Holds(v.fields, Ascii("shape"), Arr(sizes));
    var width :| Width(t.dtype, width) && t.end - t.start == Volume(t.shape) * width;
    GetMeans(v.fields, DTYPE, Str(t.dtype));
    GetMeans(v.fields, SHAPE, Arr(sizes));
    GetMeans(v.fields, DATA_OFFSETS, Arr([Int(t.start), Int(t.end)]));
    NaturalsMeans(sizes, t.shape);
    WidthMeans(t.dtype, width);
    hide Get, Naturals, DtypeBytes, Product, Volume, Width, Holds;
  }

  // ---------- tiling ----------

  /** In how many of the ranges the payload byte p lies. */
  ghost function Coverage(ranges: seq<Range>, p: nat): nat {
    if ranges == [] then 0
    else (if ranges[0].start <= p < ranges[0].end then 1 else 0) + Coverage(ranges[1..], p)
  }

  /** Every payload byte lies in exactly one range, and no range starts strictly inside another one.
      The second part concerns empty ranges only: they may sit at a boundary, not in an interior. */
  ghost predicate Tiles(ranges: seq<Range>, payload: nat) {
    && (forall p: nat :: p < payload ==> Coverage(ranges, p) == 1)
    && (forall a, b :: a in ranges && b in ranges ==> !(a.start < b.start < a.end))
  }

  ghost predicate InBounds(ranges: seq<Range>, lo: nat, hi: nat) {
    forall r :: r in ranges ==> lo <= r.start <= r.end <= hi
  }

  /** Tuple order, as `sorted` uses on (start, end) pairs. */
  predicate Before(a: Range, b: Range) {
    a.start < b.start || (a.start == b.start && a.end <= b.end)
  }

  /** `sorted(ranges)` */
  function SortRanges(ranges: seq<Range>): seq<Range> {
    Sort(Before, ranges)
  }

  lemma {:induction false} InsertCoverage(r: Range, ranges: seq<Range>, p: nat)
    ensures Coverage(Insert(Before, r, ranges), p) == Coverage([r], p) + Coverage(ranges, p)
  {
    assert [r][1..] == [];
    if ranges == [] || Before(r, ranges[0]) {
      assert ([r] + ranges)[1..] == ranges;
    } else {
      InsertCoverage(r, ranges[1..], p);
      var rest := Insert(Before, r, ranges[1..]);
      assert ([ranges[0]] + rest)[1..] == rest;
    }
  }

  lemma {:induction false} SortCoverage(ranges: seq<Range>, p: nat)
    ensures Coverage(SortRanges(ranges), p) == Coverage(ranges, p)
  {
    if ranges != [] {
      SortCoverage(ranges[1..], p);
      InsertCoverage(ranges[0], SortRanges(ranges[1..]), p);
      assert [ranges[0]][1..] == [];
    }
  }

  lemma RangesSorted(ranges: seq<Range>)
    ensures Sorted(Before, SortRanges(ranges))
    ensures forall r :: r in SortRanges(ranges) <==> r in ranges
    ensures forall p: nat :: Coverage(SortRanges(ranges), p) == Coverage(ranges, p)
  {
    SortSorts(Before, ranges);
    SortKeeps(Before, ranges);
    forall p: nat
      ensures Coverage(SortRanges(ranges), p) == Coverage(ranges, p)
    {
      SortCoverage(ranges, p);
    }
  }

  /** The sweep: each range starts where the previous one ended, and the last ends the payload. */
  ghost predicate Chain(ranges: seq<Range>, from: nat, payload: nat) {
    if ranges == [] then from == payload
    else ranges[0].start == from && Chain(ranges[1..], ranges[0].end, payload)
  }

  lemma {:induction false} ChainTiles(ranges: seq<Range>, from: nat, payload: nat)
    requires Chain(ranges, from, payload) && forall r :: r in ranges ==> r.start <= r.end
    ensures from <= payload && InBounds(ranges, from, payload)
    ensures forall p: nat :: Coverage(ranges, p) == if from <= p < payload then 1 else 0
    ensures forall a, b :: a in ranges && b in ranges ==> !(a.start < b.start < a.end)
  {
    if ranges != [] {
      ChainTiles(ranges[1..], ranges[0].end, payload);
      assert ranges == [ranges[0]] + ranges[1..];
    }
  }

  lemma {:induction false} CoversAtLeast(ranges: seq<Range>, p: nat)
    ensures Coverage(ranges, p) > 0 <==> exists r :: r in ranges && r.start <= p < r.end
  {
    if ranges != [] {
      CoversAtLeast(ranges[1..], p);
      assert ranges == [ranges[0]] + ranges[1..];
    }
  }

  lemma {:induction false} TilesChain(ranges: seq<Range>, from: nat, payload: nat)
    requires from <= payload && Sorted(Before, ranges) && InBounds(ranges, from, payload)
    requires forall p: nat :: from <= p < payload ==> Coverage(ranges, p) == 1
    requires forall a, b :: a in ranges && b in ranges ==> !(a.start < b.start < a.end)
    ensures Chain(ranges, from, payload)
  {
    if ranges == [] {
      assert Coverage(ranges, from) == 0;
    } else {
      var head, rest := ranges[0], ranges[1..];
      assert ranges == [head] + rest;
      HeadStarts(ranges, from, payload);
      CoversAtLeast(rest, from);
      assert from < payload ==> Coverage(ranges, from) == 1;
      forall b | b in rest
        ensures head.end <= b.start
      {
        assert !(head.start < b.start < head.end);
      }
      forall p: nat | head.end <= p < payload
        ensures Coverage(rest, p) == 1
      {
        assert Coverage(ranges, p) == 1;
      }
      TilesChain(rest, head.end, payload);
    }
  }

  lemma HeadStarts(ranges: seq<Range>, from: nat, payload: nat)
    requires ranges != [] && Sorted(Before, ranges) && InBounds(ranges, from, payload)
    requires from < payload ==> Coverage(ranges, from) == 1
    ensures ranges[0].start == from
  {
    assert ranges[0] in ranges;
    if from < payload {
      CoversAtLeast(ranges, from);
      var r :| r in ranges && r.start <= from < r.end;
      assert Before(ranges[0], r);
    }
  }

  /** Sorting and sweeping accepts exactly the range lists that tile the payload. */
  lemma SweepDecidesTiling(ranges: seq<Range>, payload: nat)
    requires InBounds(ranges, 0, payload)
    ensures Chain(SortRanges(ranges), 0, payload) <==> Tiles(ranges, payload)
  {
    RangesSorted(ranges);
    var sorted := SortRanges(ranges);
    assert forall r :: r in sorted <==> r in ranges by {
      assert forall r :: r in sorted <==> r in multiset(sorted);
      assert forall r :: r in ranges <==> r in multiset(ranges);
    }
    if Chain(sorted, 0, payload) {
      ChainTiles(sorted, 0, payload);
    }
    if Tiles(ranges, payload) {
      TilesChain(sorted, 0, payload);
    }
  }

  /** Covering every byte exactly once is not enough: an empty tensor inside another one is refused. */
  lemma InteriorEmptyRangeRefused()
    ensures var ranges := [Range(0, 4), Range(2, 2)];
      InBounds(ranges, 0, 4) && (forall p: nat :: p < 4 ==> Coverage(ranges, p) == 1)
        && !Chain(SortRanges(ranges), 0, 4)
  {
    var ranges := [Range(0, 4), Range(2, 2)];
    assert SortRanges(ranges) == [Range(0, 4), Range(2, 2)] by {
      assert ranges[1..] == [Range(2, 2)] && ranges[1..][1..] == [];
      assert Sort(Before, ranges[1..]) == [Range(2, 2)];
    }
    assert SortRanges(ranges)[1..] == [Range(2, 2)];
    forall p: nat | p < 4
      ensures Coverage(ranges, p) == 1
    {
      assert Coverage(ranges[1..], p) == 0;
    }
  }

  // ---------- the reader ----------

  datatype Header = Header(fields: seq<Member>, base: nat)

  datatype Error =
    | SizeOutsideBound
    | InvalidHeader
    | InvalidInventory
    | InvalidTensor
    | IncompleteRanges
    | UnaccountedPayload

  /** The declared length and the JSON object that follow, where the size checks let the reader get so far. */
  function HeaderFields(file: Bytes): (r: Option<seq<Member>>)
    ensures r.Some? ==>
      10 <= |file| <= MAX_SOURCE && 2 <= HeaderLength(file) <= MAX_HEADER && HeaderLength(file) + 8 <= |file|
    ensures r.Some? ==> |r.value| <= MAX_NAMES
  {
    if |file| > MAX_SOURCE || |file| < 10 then None
    else
      var length := HeaderLength(file);
      if length < 2 || length > MAX_HEADER || length + 8 > |file| then None
      else
        match Loads(file[8..8 + length])
        case None => None
        case Some(v) => if v.Obj? && |v.fields| <= MAX_NAMES then Some(v.fields) else None
  }

  /** A file's header fields, spelled out: the sizes allowed, the length field byte by byte, and the JSON
      object behind it. */
  lemma HeaderFieldsMean(file: Bytes, fields: seq<Member>)
    ensures HeaderFields(file) == Some(fields) <==>
      && 10 <= |file| <= 2_147_483_648
      && var n := file[0] as nat + 0x100 * file[1] as nat + 0x1_0000 * file[2] as nat + 0x100_0000 * file[3] as nat
           + 0x1_0000_0000 * file[4] as nat + 0x100_0000_0000 * file[5] as nat
           + 0x1_0000_0000_0000 * file[6] as nat + 0x100_0000_0000_0000 * file[7] as nat;
         && 2 <= n <= 1_048_576 && n + 8 <= |file|
         && Loads(file[8..8 + n]) == Some(Obj(fields)) && |fields| <= 2001
  {
    hide Loads, FromLittleEndian;
    if |file| >= 10 { EightBytes(file[..8]); }
  }

  function HeaderLength(file: Bytes): nat
    requires |file| >= 8
  {
    FromLittleEndian(file[..8])
  }

  ghost predicate TensorFields(fields: seq<Member>, payload: nat) {
    forall m :: m in fields && m.name != METADATA ==> ReadTensor(m.value, payload).Some?
  }

  /** The byte ranges of all tensors, in header order. */
  function RangesOf(fields: seq<Member>, payload: nat): seq<Range> {
    if fields == [] then []
    else
      var rest := RangesOf(fields[..|fields| - 1], payload);
      var last := fields[|fields| - 1];
      match ReadTensor(last.value, payload)
      case Some(t) => if last.name != METADATA then rest + [Range(t.start, t.end)] else rest
      case None => rest
  }

  function Payload(file: Bytes): nat
    requires HeaderFields(file).Some?
  {
    |file| - 8 - HeaderLength(file)
  }

  /** A tensor file: a header within bounds naming only tensors of known type, size and shape, whose
      ranges tile everything behind the header. */
  ghost predicate WellFormed(file: Bytes) {
    HeaderFields(file).Some? &&
    var fields, payload := HeaderFields(file).value, Payload(file);
    TensorFields(fields, payload) && Tiles(RangesOf(fields, payload), payload)
  }

  lemma {:induction false} RangesInBounds(fields: seq<Member>, payload: nat)
    ensures InBounds(RangesOf(fields, payload), 0, payload)
  {
    if fields != [] { RangesInBounds(fields[..|fields| - 1], payload); }
  }

  method CollectRanges(fields: seq<Member>, payload: nat) returns (r: Option<seq<Range>>)
    ensures r.Some? <==> TensorFields(fields, payload)
    ensures r.Some? ==> r.value == RangesOf(fields, payload)
  {
    var ranges: seq<Range> := [];
    for i := 0 to |fields|
      invariant TensorFields(fields[..i], payload) && ranges == RangesOf(fields[..i], payload)
    {
      assert fields[..i + 1][..i] == fields[..i] && fields[..i + 1] == fields[..i] + [fields[i]];
      if fields[i].name != METADATA {
        var tensor := ReadTensor(fields[i].value, payload);
        if tensor == None {
          assert fields[i] in fields;
          return None;
        }
        ranges := ranges + [Range(tensor.value.start, tensor.value.end)];
      }
    }
    assert fields[..|fields|] == fields;
    return Some(ranges);
  }

  method Sweep(ranges: seq<Range>, payload: nat) returns (failure: Option<Error>)
    ensures failure == None <==> Chain(ranges, 0, payload)
  {
    var previous := 0;
    for i := 0 to |ranges|
      invariant Chain(ranges, 0, payload) <==> Chain(ranges[i..], previous, payload)
    {
      if ranges[i].start != previous {
        return Some(IncompleteRanges);
      }
      previous := ranges[i].end;
      assert ranges[i..][1..] == ranges[i + 1..];
    }
    return if previous == payload then None else Some(UnaccountedPayload);
  }

  /** Accepts exactly the well-formed files. */
  method ReadHeader(file: Bytes) returns (r: Result<Header, Error>)
    ensures r.Success? <==> WellFormed(file)
    ensures r.Success? ==> r.value == Header(HeaderFields(file).value, HeaderLength(file) + 8)
  {
    if |file| > MAX_SOURCE || |file| < 10 {
      return Failure(SizeOutsideBound);
    }
    var length := FromLittleEndian(file[..8]);
    if length < 2 || length > MAX_HEADER || length + 8 > |file| {
      return Failure(InvalidHeader);
    }
    var parsed := Loads(file[8..8 + length]);
    if parsed == None || !parsed.value.Obj? || |parsed.value.fields| > MAX_NAMES {
      return Failure(InvalidInventory);
    }
    var fields, payload := parsed.value.fields, |file| - length - 8;
    assert HeaderFields(file) == Some(fields) && Payload(file) == payload;
    var ranges := CollectRanges(fields, payload);
    if ranges == None {
      return Failure(InvalidTensor);
    }
    RangesInBounds(fields, payload);
    SweepDecidesTiling(ranges.value, payload);
    var failure := Sweep(SortRanges(ranges.value), payload);
    if failure.Some? {
      return Failure(failure.value);
    }
    return Success(Header(fields, length + 8));
  }
}
