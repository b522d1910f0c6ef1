/** A family of sources that are well formed and still cannot be rewritten: their names hold characters the
    writer escapes, and the escaped header outgrows the reader's bound. */
module HeaderGrowth {
  import opened Basics
  import opened ByteStrings
  import opened Json
  import opened TensorHeader
  import opened TensorArtifact

  const DELETE: CodeUnit := 127

  /** Units a JSON string may hold as they are. */
  ghost predicate Plain(name: Name) {
    forall i :: 0 <= i < |name| ==> 32 <= name[i] < 128 && name[i] != 34 && name[i] != 92
  }

  function Raw(name: Name): (r: Bytes)
    requires Plain(name)
    ensures |r| == |name|
  {
    seq(|name|, i requires 0 <= i < |name| => name[i] as byte)
  }

  function Deletes(n: nat): (r: Name)
    ensures |r| == n
  {
    seq(n, _ => DELETE)
  }

  function LongName(n: nat): Name {
    PREFIX + Deletes(n)
  }

  lemma LongNamePlain(n: nat)
    ensures Plain(LongName(n)) && PREFIX <= LongName(n)
  {
    assert forall i :: 0 <= i < |PREFIX| ==> 32 <= PREFIX[i] < 127 && PREFIX[i] != 34 && PREFIX[i] != 92;
  }

  lemma {:induction false} RawReads(name: Name, rest: Bytes)
    requires Plain(name)
    ensures ParseUnits(Raw(name) + [QUOTE] + rest) == Parsed(name, rest)
  {
    var s := Raw(name) + [QUOTE] + rest;
    if name == [] {
      assert s[1..] == rest;
    } else {
      RawReads(name[1..], rest);
      assert s[1..] == Raw(name[1..]) + [QUOTE] + rest;
      assert s[0] == name[0] as byte;
      assert s[0] != QUOTE && s[0] != BACKSLASH;
      assert ParseUnit(s) == Parsed(name[0], s[1..]);
      assert name == [name[0]] + name[1..];
    }
  }

  /** Each DELETE is printed as an escape of six characters. */
  lemma {:induction false} PrintedLength(front: Name, n: nat)
    ensures |PrintUnits(front + Deletes(n))| >= 6 * n
    decreases |front| + n
  {
    var name := front + Deletes(n);
    if front != [] {
      assert name[1..] == front[1..] + Deletes(n);
      PrintedLength(front[1..], n);
    } else if n > 0 {
      assert name[1..] == [] + Deletes(n - 1);
      PrintedLength([], n - 1);
    }
  }

  lemma {:induction false} PrintedAtMost(name: Name)
    ensures |PrintUnits(name)| <= 6 * |name|
  {
    if name != [] { PrintedAtMost(name[1..]); }
  }

  /** The entry for a tensor without elements. */
  function EmptyTensor(): Json {
    TensorJson([0], 0, 0)
  }

  lemma EmptyTensorShort()
    ensures |Print(EmptyTensor())| <= 1000
  {
    var a, b, c := Member(DTYPE, Str(BF16)), Member(SHAPE, Arr(Numbers([0]))),
      Member(DATA_OFFSETS, Arr(Numbers([0, 0])));
    PrintedAtMost(DTYPE);
    PrintedAtMost(BF16);
    PrintedAtMost(SHAPE);
    PrintedAtMost(DATA_OFFSETS);
    assert |Print(Str(BF16))| == |PrintUnits(BF16)| + 2;
    NumbersShort();
    ThreeFields(a, b, c);
    hide Print, PrintUnits, Numbers;
  }

  lemma ThreeFields(a: Member, b: Member, c: Member)
    ensures |Print(Obj([a, b, c]))| == 13
      + |PrintUnits(a.name)| + |PrintUnits(b.name)| + |PrintUnits(c.name)|
      + |Print(a.value)| + |Print(b.value)| + |Print(c.value)|
  {
    assert |Print(Obj([a, b, c]))| == 1 + |PrintFields([a, b, c])|;
    FieldsLength(a, [b, c]);
    FieldsLength(b, [c]);
    FieldsLength(c, []);
    assert [a] + [b, c] == [a, b, c] && [b] + [c] == [b, c] && [c] + [] == [c];
    hide Print, PrintFields, PrintUnits;
  }

  lemma NumbersShort()
    ensures |Print(Arr(Numbers([0])))| == 3 && |Print(Arr(Numbers([0, 0])))| == 5
  {
    var one, two := Numbers([0]), Numbers([0, 0]);
    assert |PrintItems(one)| == 2;
    assert two[1..] == one;
    assert |PrintItems(two)| == 4;
  }

  lemma FieldsLength(m: Member, rest: seq<Member>)
    ensures |PrintFields([m] + rest)| ==
      |PrintUnits(m.name)| + 4 + |Print(m.value)| + (if rest == [] then 0 else |PrintFields(rest)|)
  {
    assert ([m] + rest)[1..] == rest;
  }

  /** A header with one entry, its name as it stands. */
  function RawHeader(name: Name): Bytes
    requires Plain(name)
  {
    [OPEN_OBJECT, QUOTE] + Raw(name) + [QUOTE, COLON] + Print(EmptyTensor()) + [CLOSE_OBJECT]
  }

  lemma RawNameReads(name: Name, rest: Bytes)
    requires Plain(name)
    ensures ParseName([QUOTE] + (Raw(name) + [QUOTE] + rest)) == Parsed(name, rest)
  {
    RawReads(name, rest);
    assert ([QUOTE] + (Raw(name) + [QUOTE] + rest))[1..] == Raw(name) + [QUOTE] + rest;
  }

  lemma RawHeaderLoads(name: Name)
    requires Plain(name)
    ensures Loads(RawHeader(name)) == Some(Obj([Member(name, EmptyTensor())]))
  {
    var v := EmptyTensor();
    var y := Print(v) + [CLOSE_OBJECT];
    RawHeaderParts(name);
    TensorJsonReads([0], 0, 0, 0);
    RawNameReads(name, [COLON] + y);
    hide *;
    OneFieldLoads([QUOTE] + (Raw(name) + [QUOTE] + ([COLON] + y)), name, v);
  }

  /** An object of one field, however its name is written. */
  lemma OneFieldLoads(t: Bytes, name: Name, v: Json)
    requires Printable(v) && t != [] && t[0] == QUOTE
    requires ParseName(t) == Parsed(name, [COLON] + (Print(v) + [CLOSE_OBJECT]))
    ensures Loads([OPEN_OBJECT] + t) == Some(Obj([Member(name, v)]))
  {
    var end := [CLOSE_OBJECT];
    var s, y := [OPEN_OBJECT] + t, Print(v) + end;
    ValueOpens(v, end);
    NoSkip(end);
    NoSkip(t);
    NoSkip(s);
    ValueRoundTrip(v, end);
    assert end[1..] == [];
    OneName(name, v);
    EmptyRest();
    hide *;
    ParsesField(t, name, y, v, end);
    ParsesObject(s, t, [Member(name, v)], []);
    LoadsWhole(s, Obj([Member(name, v)]));
  }

  lemma ValueOpens(v: Json, end: Bytes)
    requires Printable(v)
    ensures SkipSpace(Print(v) + end) == Print(v) + end
  {
    FirstCharacter(v);
    hide Print;
    NoSkip(Print(v) + end);
  }

  lemma RawHeaderParts(name: Name)
    requires Plain(name)
    ensures RawHeader(name) ==
      [OPEN_OBJECT] + ([QUOTE] + (Raw(name) + [QUOTE] + ([COLON] + (Print(EmptyTensor()) + [CLOSE_OBJECT]))))
  {
    hide Raw, Print, EmptyTensor;
  }

  lemma OneName(name: Name, v: Json)
    ensures UniqueNames([Member(name, v)])
  {
  }

  lemma LoadsWhole(s: Bytes, v: Json)
    requires SkipSpace(s) == s && SkipSpace([]) == [] && ParseValue(s) == Parsed(v, [])
    ensures Loads(s) == Some(v)
  {
  }

  lemma EmptyRest()
    ensures SkipSpace([]) == []
  {
  }

  /** A checkpoint of one empty text tensor. */
  function Checkpoint(n: nat): Bytes
    requires Plain(LongName(n)) && |RawHeader(LongName(n))| < TWO_64
  {
    U64(|RawHeader(LongName(n))|) + RawHeader(LongName(n))
  }

  lemma HeaderFits(n: nat)
    requires n <= 1_000_000
    ensures Plain(LongName(n)) && 2 <= |RawHeader(LongName(n))| <= MAX_HEADER
  {
    LongNamePlain(n);
    EmptyTensorShort();
  }

  lemma CheckpointReads(n: nat)
    requires n <= 1_000_000
    ensures Plain(LongName(n)) && |RawHeader(LongName(n))| < TWO_64 && WellFormed(Checkpoint(n))
    ensures HeaderFields(Checkpoint(n)) == Some([Member(LongName(n), EmptyTensor())])
    ensures Payload(Checkpoint(n)) == 0 && HeaderLength(Checkpoint(n)) == |RawHeader(LongName(n))|
  {
    HeaderFits(n);
    var name := LongName(n);
    var header, fields := RawHeader(name), [Member(name, EmptyTensor())];
    var file := Checkpoint(n);
    U64RoundTrip(|header|);
    assert file[..8] == U64(|header|) && file[8..8 + |header|] == header;
    RawHeaderLoads(name);
    OneRange(name);
    hide Loads, RawHeader, TensorFields, RangesOf, Tiles, WellFormed, HeaderFields;
    ReadsWhole(file, |header|, fields, 0);
  }

  lemma OneRange(name: Name)
    ensures TensorFields([Member(name, EmptyTensor())], 0)
    ensures Tiles(RangesOf([Member(name, EmptyTensor())], 0), 0)
  {
    TensorJsonReads([0], 0, 0, 0);
    var fields := [Member(name, EmptyTensor())];
    assert fields[..0] == [];
    assert forall r :: r in RangesOf(fields, 0) ==> r == Range(0, 0);
  }

  /** What the build keeps of the checkpoint. */
  lemma CheckpointKept(n: nat)
    requires n <= 1_000_000
    ensures Plain(LongName(n)) && |RawHeader(LongName(n))| < TWO_64 && WellFormed(Checkpoint(n))
    ensures KeptOf(Checkpoint(n)) == [Entry(LongName(n), Tensor(BF16, [0], 0, 0))]
  {
    CheckpointReads(n);
    LongNamePlain(n);
    TensorJsonReads([0], 0, 0, 0);
    var fields := [Member(LongName(n), EmptyTensor())];
    var e := Entry(LongName(n), Tensor(BF16, [0], 0, 0));
    assert TensorFields(fields, 0);
    assert Retained(fields[1..], 0) == [];
    assert Retained(fields, 0) == [e];
    assert SortEntries([e][1..]) == [];
    assert SortEntries([e]) == [e];
  }

  /** A well-formed source with one text tensor of type BF16 and no bytes, whose new header is too long: only
      the length of the printed header keeps it from being built. */
  lemma HeaderOutgrowsBound(n: nat)
    requires 175_000 <= n <= 1_000_000
    ensures Plain(LongName(n)) && |RawHeader(LongName(n))| < TWO_64
    ensures var source := Checkpoint(n);
      && WellFormed(source) && KeptOf(source) != [] && AllBf16(KeptOf(source)) && TotalSize(KeptOf(source)) == 0
      && |EncodedHeader(KeptOf(source))| > MAX_HEADER >= HeaderLength(source)
      && !Buildable(source)
  {
    CheckpointKept(n);
    CheckpointReads(n);
    HeaderFits(n);
    NewHeaderLong(n);
    hide *;
    Unbuildable(Checkpoint(n));
  }

  lemma NewHeaderLong(n: nat)
    requires n >= 175_000
    ensures var kept := [Entry(LongName(n), Tensor(BF16, [0], 0, 0))];
      && TotalSize(kept) == 0 && AllBf16(kept) && |EncodedHeader(kept)| > MAX_HEADER
  {
    var name := LongName(n);
    var kept := [Entry(name, Tensor(BF16, [0], 0, 0))];
    assert kept[..0] == [];
    assert NewFields(kept) == [Member(name, EmptyTensor())];
    PrintedLength(PREFIX, n);
    FieldsLength(Member(name, EmptyTensor()), []);
    assert [Member(name, EmptyTensor())] + [] == NewFields(kept);
    hide PrintUnits, PrintFields, NewFields;
  }

  lemma Unbuildable(source: Bytes)
    requires WellFormed(source) && |EncodedHeader(KeptOf(source))| > MAX_HEADER
    ensures !Buildable(source)
  {
    hide WellFormed, KeptOf, EncodedHeader;
  }
}
