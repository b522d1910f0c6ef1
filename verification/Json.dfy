/** The JSON text of a tensor header (RFC 8259): a compact printer, a strict parser that refuses
    duplicate names, and the round trip between them. Text is ASCII; names are UTF-16 code units. */
module Json {
  import opened Basics
  import opened ByteStrings

  type CodeUnit = u: int | 0 <= u < 0x1_0000

  type Name = seq<CodeUnit>

  datatype Json =
    | Null
    | Bool(flag: bool)
    | Int(n: int)
    | Real(text: Bytes)
    | Str(name: Name)
    | Arr(items: seq<Json>)
    | Obj(fields: seq<Member>)

  /** One name/value pair of an object. */
  datatype Member = Member(name: Name, value: Json)

  datatype Parsed<+T> = Refused | Parsed(value: T, rest: Bytes)

  const QUOTE: byte := 34
  const COMMA: byte := 44
  const MINUS: byte := 45
  const COLON: byte := 58
  const OPEN_ARRAY: byte := 91
  const BACKSLASH: byte := 92
  const CLOSE_ARRAY: byte := 93
  const OPEN_OBJECT: byte := 123
  const CLOSE_OBJECT: byte := 125
  const SPACE: byte := 32

  // ---------- printing ----------

  function Digit(d: nat): byte
    requires d < 10
  {
    (48 + d) as byte
  }

  function PrintNat(n: nat): (r: Bytes)
    ensures r != []
  {
    if n < 10 then [Digit(n)] else PrintNat(n / 10) + [Digit(n % 10)]
  }

  function PrintInt(n: int): Bytes {
    if n < 0 then [MINUS] + PrintNat(-n) else PrintNat(n)
  }

  function HexDigit(d: nat): byte
    requires d < 16
  {
    if d < 10 then (48 + d) as byte else (87 + d) as byte
  }

  /** The letter after a backslash for the units that have a short escape. */
  function ShortEscape(u: CodeUnit): byte {
    if u == 34 then 34 else if u == 92 then 92
    else if u == 8 then 98 else if u == 12 then 102 else if u == 10 then 110
    else if u == 13 then 114 else if u == 9 then 116
    else 0
  }

  function PrintUnit(u: CodeUnit): (r: Bytes)
    ensures r != []
  {
    if ShortEscape(u) != 0 then [BACKSLASH, ShortEscape(u)]
    else if 32 <= u < 127 then [u as byte]
    else [BACKSLASH, 117, HexDigit(u / 4096), HexDigit(u / 256 % 16), HexDigit(u / 16 % 16), HexDigit(u % 16)]
  }

  function PrintUnits(name: Name): Bytes {
    if name == [] then [] else PrintUnit(name[0]) + PrintUnits(name[1..])
  }

  function PrintName(name: Name): Bytes {
    [QUOTE] + PrintUnits(name) + [QUOTE]
  }

  /** `json.dumps(value, separators=(',', ':'))` */
  function Print(v: Json): Bytes
    decreases v, 0
  {
    match v
    case Null => [110, 117, 108, 108]
    case Bool(b) => if b then [116, 114, 117, 101] else [102, 97, 108, 115, 101]
    case Int(n) => PrintInt(n)
    case Real(t) => t
    case Str(s) => PrintName(s)
    case Arr(items) => if items == [] then [OPEN_ARRAY, CLOSE_ARRAY] else [OPEN_ARRAY] + PrintItems(items)
    case Obj(fields) => if fields == [] then [OPEN_OBJECT, CLOSE_OBJECT] else [OPEN_OBJECT] + PrintFields(fields)
  }

  /** The items of a non-empty array and the closing bracket. */
  function PrintItems(items: seq<Json>): Bytes
    requires items != []
    decreases items, 1
  {
    Print(items[0]) + (if |items| == 1 then [CLOSE_ARRAY] else [COMMA] + PrintItems(items[1..]))
  }

  function PrintFields(fields: seq<Member>): Bytes
    requires fields != []
    decreases fields, 1
  {
    var Member(name, v) := fields[0];
    PrintName(name) + [COLON] + Print(v) +
    (if |fields| == 1 then [CLOSE_OBJECT] else [COMMA] + PrintFields(fields[1..]))
  }

  // ---------- parsing ----------

  predicate IsSpace(b: byte) {
    b == 32 || b == 9 || b == 10 || b == 13
  }

  function SkipSpace(s: Bytes): (r: Bytes)
    ensures |r| <= |s|
    ensures r != [] ==> !IsSpace(r[0])
  {
    if s != [] && IsSpace(s[0]) then SkipSpace(s[1..]) else s
  }

  predicate IsDigit(b: byte) {
    48 <= b <= 57
  }

  /** How many digits the text opens with. */
  function DigitCount(s: Bytes): (n: nat)
    ensures n <= |s| && forall i :: 0 <= i < n ==> IsDigit(s[i])
    ensures n < |s| ==> !IsDigit(s[n])
  {
    if s != [] && IsDigit(s[0]) then 1 + DigitCount(s[1..]) else 0
  }

  function DigitsValue(s: Bytes): nat
    requires forall i :: 0 <= i < |s| ==> IsDigit(s[i])
  {
    if s == [] then 0 else
      assert IsDigit(s[|s| - 1]);
      DigitsValue(s[..|s| - 1]) * 10 + (s[|s| - 1] as int - 48)
  }

  /** Length of the fraction, if any: a point followed by at least one digit. */
  function FractionLength(s: Bytes): (n: nat)
    ensures n <= |s|
  {
    if |s| >= 2 && s[0] == 46 && IsDigit(s[1]) then 1 + DigitCount(s[1..]) else 0
  }

  function ExponentLength(s: Bytes): (n: nat)
    ensures n <= |s|
  {
    if |s| >= 2 && (s[0] == 69 || s[0] == 101) then
      if IsDigit(s[1]) then 1 + DigitCount(s[1..])
      else if |s| >= 3 && (s[1] == 43 || s[1] == 45) && IsDigit(s[2]) then 2 + DigitCount(s[2..])
      else 0
    else 0
  }

  /** How many digits the integer part takes: a leading zero stands alone. */
  function IntegerLength(body: Bytes): (k: nat)
    requires body != [] && IsDigit(body[0])
    ensures 0 < k <= |body| && forall i :: 0 <= i < k ==> IsDigit(body[i])
  {
    if body[0] == 48 then 1 else DigitCount(body)
  }

  /** The length of the fraction and exponent that follow an integer part. */
  function TailLength(after: Bytes): (n: nat)
    ensures n <= |after|
  {
    var f := FractionLength(after);
    f + ExponentLength(after[f..])
  }

  function ParseNumber(s: Bytes): (r: Parsed<Json>)
    ensures r.Parsed? ==> |r.rest| < |s|
  {
    var negative := s != [] && s[0] == MINUS;
    var body := if negative then s[1..] else s;
    if body == [] || !IsDigit(body[0]) then Refused
    else
      var k := IntegerLength(body);
      var n: int, t := DigitsValue(body[..k]), TailLength(body[k..]);
      if t == 0 then Parsed(Int(if negative then -n else n), body[k..])
      else Parsed(Real(s[..|s| - |body[k + t..]|]), body[k + t..])
  }

  function HexValue(b: byte): (r: int)
    ensures -1 <= r < 16
  {
    if 48 <= b <= 57 then b as int - 48
    else if 97 <= b <= 102 then b as int - 87
    else if 65 <= b <= 70 then b as int - 55
    else -1
  }

  /** The unit a short escape letter stands for; -1 for any other letter. */
  function ShortUnescape(b: byte): int {
    if b == 34 then 34 else if b == 92 then 92 else if b == 47 then 47
    else if b == 98 then 8 else if b == 102 then 12 else if b == 110 then 10
    else if b == 114 then 13 else if b == 116 then 9
    else -1
  }

  /** One unit of a string body: a plain character or an escape. Control characters are refused. */
  function ParseUnit(s: Bytes): (r: Parsed<CodeUnit>)
    ensures r.Parsed? ==> |r.rest| < |s|
  {
    if s == [] then Refused
    else if s[0] != BACKSLASH then
      if 32 <= s[0] < 128 then Parsed(s[0] as int, s[1..]) else Refused
    else if |s| < 2 then Refused
    else if s[1] != 117 then
      if ShortUnescape(s[1]) >= 0 then Parsed(ShortUnescape(s[1]), s[2..]) else Refused
    else if |s| < 6 then Refused
    else
      var a, b, c, d := HexValue(s[2]), HexValue(s[3]), HexValue(s[4]), HexValue(s[5]);
      if a < 0 || b < 0 || c < 0 || d < 0 then Refused
      else Parsed(((a * 16 + b) * 16 + c) * 16 + d, s[6..])
  }

  /** The body of a string, after its opening quote. */
  function ParseUnits(s: Bytes): (r: Parsed<Name>)
    ensures r.Parsed? ==> |r.rest| < |s|
    decreases |s|
  {
    if s != [] && s[0] == QUOTE then Parsed([], s[1..])
    else
      match ParseUnit(s)
      case Refused => Refused
      case Parsed(u, rest) =>
        match ParseUnits(rest)
        case Refused => Refused
        case Parsed(us, end) => Parsed([u] + us, end)
  }

  function ParseName(s: Bytes): (r: Parsed<Name>)
    ensures r.Parsed? ==> |r.rest| < |s|
  {
    if s != [] && s[0] == QUOTE then ParseUnits(s[1..]) else Refused
  }

  /** What `unique_object` insists on: no name twice. */
  predicate UniqueNames(fields: seq<Member>) {
    forall i, j :: 0 <= i < j < |fields| ==> fields[i].name != fields[j].name
  }

  function ParseLiteral(s: Bytes): (r: Parsed<Json>)
    ensures r.Parsed? ==> |r.rest| < |s|
  {
    if Print(Null) <= s then Parsed(Null, s[4..])
    else if Print(Bool(true)) <= s then Parsed(Bool(true), s[4..])
    else if Print(Bool(false)) <= s then Parsed(Bool(false), s[5..])
    else Refused
  }

  function ParseValue(s: Bytes): (r: Parsed<Json>)
    ensures r.Parsed? ==> |r.rest| < |s|
    decreases |s|, 1
  {
    if s == [] then Refused
    else if s[0] == QUOTE then
      (match ParseName(s)
       case Refused => Refused
       case Parsed(name, rest) => Parsed(Str(name), rest))
    else if s[0] == OPEN_ARRAY then
      var t := SkipSpace(s[1..]);
      if t != [] && t[0] == CLOSE_ARRAY then Parsed(Arr([]), t[1..])
      else
        (match ParseItems(t)
         case Refused => Refused
         case Parsed(items, rest) => Parsed(Arr(items), rest))
    else if s[0] == OPEN_OBJECT then
      var t := SkipSpace(s[1..]);
      if t != [] && t[0] == CLOSE_OBJECT then Parsed(Obj([]), t[1..])
      else
        (match ParseFields(t)
         case Refused => Refused
         case Parsed(fields, rest) => if UniqueNames(fields) then Parsed(Obj(fields), rest) else Refused)
    else if s[0] == MINUS || IsDigit(s[0]) then ParseNumber(s)
    else ParseLiteral(s)
  }

  function ParseItems(s: Bytes): (r: Parsed<seq<Json>>)
    ensures r.Parsed? ==> |r.rest| < |s|
    decreases |s|, 2
  {
    match ParseValue(s)
    case Refused => Refused
    case Parsed(v, rest) =>
      var t := SkipSpace(rest);
      if t == [] then Refused
      else if t[0] == CLOSE_ARRAY then Parsed([v], t[1..])
      else if t[0] != COMMA then Refused
      else
        match ParseItems(SkipSpace(t[1..]))
        case Refused => Refused
        case Parsed(vs, end) => Parsed([v] + vs, end)
  }

  function ParseFields(s: Bytes): (r: Parsed<seq<Member>>)
    ensures r.Parsed? ==> |r.rest| < |s|
    decreases |s|, 2
  {
    match ParseName(s)
    case Refused => Refused
    case Parsed(name, afterName) =>
      var c := SkipSpace(afterName);
      if c == [] || c[0] != COLON then Refused
      else
        match ParseValue(SkipSpace(c[1..]))
        case Refused => Refused
        case Parsed(v, rest) =>
          var t := SkipSpace(rest);
          if t == [] then Refused
          else if t[0] == CLOSE_OBJECT then Parsed([Member(name, v)], t[1..])
          else if t[0] != COMMA then Refused
          else
            match ParseFields(SkipSpace(t[1..]))
            case Refused => Refused
            case Parsed(fs, end) => Parsed([Member(name, v)] + fs, end)
  }

  /** `json.loads(text, object_pairs_hook=unique_object)`: one value, spaces around it, nothing else. */
  function Loads(text: Bytes): Option<Json> {
    match ParseValue(SkipSpace(text))
    case Refused => None
    case Parsed(v, rest) => if SkipSpace(rest) == [] then Some(v) else None
  }

  // ---------- the round trip ----------

  /** Values the header writer produces: no reals, and no object with a repeated name. */
  ghost predicate Printable(v: Json)
    decreases v
  {
    match v
    case Real(_) => false
    case Arr(items) => forall i :: 0 <= i < |items| ==> Printable(items[i])
    case Obj(fields) => UniqueNames(fields) && forall i :: 0 <= i < |fields| ==> Printable(fields[i].value)
    case _ => true
  }

  /** What may follow a value without becoming part of it. */
  predicate Delimited(rest: Bytes) {
    rest == [] || !(IsDigit(rest[0]) || rest[0] == 46 || rest[0] == 69 || rest[0] == 101)
  }

  lemma {:induction false} PrintNatDigits(n: nat, rest: Bytes)
    requires rest == [] || !IsDigit(rest[0])
    ensures forall i :: 0 <= i < |PrintNat(n)| ==> IsDigit(PrintNat(n)[i])
    ensures DigitsValue(PrintNat(n)) == n
    ensures DigitCount(PrintNat(n) + rest) == |PrintNat(n)|
    ensures PrintNat(n)[0] == 48 ==> n == 0
  {
    if n >= 10 {
      PrintNatDigits(n / 10, []);
      var front := PrintNat(n / 10);
      assert PrintNat(n)[..|front|] == front;
    }
    CountRun(PrintNat(n), rest);
  }

  lemma {:induction false} CountRun(digits: Bytes, rest: Bytes)
    requires forall i :: 0 <= i < |digits| ==> IsDigit(digits[i])
    requires rest == [] || !IsDigit(rest[0])
    ensures DigitCount(digits + rest) == |digits|
  {
    if digits == [] {
      assert digits + rest == rest;
    } else {
      CountRun(digits[1..], rest);
      assert (digits + rest)[1..] == digits[1..] + rest;
    }
  }

  lemma NoTail(rest: Bytes)
    requires Delimited(rest)
    ensures TailLength(rest) == 0
  {
    assert rest[0..] == rest;
  }

  /** What the parser does with a run of digits that nothing extends. */
  lemma ParsesDigits(s: Bytes, digits: Bytes, rest: Bytes, n: nat)
    requires s == digits + rest && Delimited(rest) && digits != []
    requires forall i :: 0 <= i < |digits| ==> IsDigit(digits[i])
    requires DigitCount(s) == |digits| && DigitsValue(digits) == n
    requires digits[0] == 48 ==> |digits| == 1
    ensures ParseNumber(s) == Parsed(Int(n), rest)
    ensures ParseNumber([MINUS] + s) == Parsed(Int(0 - n), rest)
  {
    assert s[|digits|..] == rest && s[..|digits|] == digits;
    NoTail(rest);
    assert IntegerLength(s) == |digits| && s[0] == digits[0];
    NumberParts(s, |digits|, n);
  }

  lemma NumberParts(s: Bytes, k: nat, n: nat)
    requires 0 < k <= |s| && IsDigit(s[0]) && IntegerLength(s) == k && TailLength(s[k..]) == 0
    requires (forall i :: 0 <= i < k ==> IsDigit(s[i])) && DigitsValue(s[..k]) == n
    ensures ParseNumber(s) == Parsed(Int(n), s[k..])
    ensures ParseNumber([MINUS] + s) == Parsed(Int(0 - n), s[k..])
  {
    hide DigitsValue, IntegerLength, TailLength;
    assert ([MINUS] + s)[1..] == s;
  }

  lemma IntRoundTrip(n: int, rest: Bytes)
    requires Delimited(rest)
    ensures ParseValue(PrintInt(n) + rest) == Parsed(Int(n), rest)
  {
    hide ParseValue, ParseNumber, DigitCount, DigitsValue, PrintNat;
    var m: nat := if n < 0 then -n else n;
    PrintNatDigits(m, rest);
    PrintNatSingle(m);
    ParsesDigits(PrintNat(m) + rest, PrintNat(m), rest, m);
    OpensNumber(PrintNat(m) + rest);
    if n < 0 {
      assert PrintInt(n) + rest == [MINUS] + (PrintNat(m) + rest);
    }
  }

  lemma PrintNatSingle(n: nat)
    ensures n == 0 ==> |PrintNat(n)| == 1
  {
  }

  lemma OpensNumber(s: Bytes)
    requires s != [] && IsDigit(s[0])
    ensures ParseValue(s) == ParseNumber(s) && ParseValue([MINUS] + s) == ParseNumber([MINUS] + s)
  {
    hide ParseItems, ParseFields, ParseName, ParseLiteral, ParseNumber, SkipSpace, Print;
  }

  lemma UnitRoundTrip(u: CodeUnit, t: Bytes)
    ensures ParseUnit(PrintUnit(u) + t) == Parsed(u, t)
    ensures (PrintUnit(u) + t)[0] != QUOTE
  {
    var s := PrintUnit(u) + t;
    if ShortEscape(u) != 0 {
      assert s[2..] == t;
    } else if 32 <= u < 127 {
      assert s[1..] == t;
    } else {
      HexRoundTrip(u, t);
    }
  }

  lemma HexDigits(u: CodeUnit)
    ensures var a, b, c, d := u / 4096, u / 256 % 16, u / 16 % 16, u % 16;
      a < 16 && ((a * 16 + b) * 16 + c) * 16 + d == u
  {
    var a, b, c, d := u / 4096, u / 256 % 16, u / 16 % 16, u % 16;
    assert u / 256 == a * 16 + b && u / 16 == (u / 256) * 16 + c;
  }

  lemma HexDigitValue(d: nat)
    requires d < 16
    ensures HexValue(HexDigit(d)) == d
  {
  }

  lemma HexRoundTrip(u: CodeUnit, t: Bytes)
    requires ShortEscape(u) == 0 && !(32 <= u < 127)
    ensures ParseUnit(PrintUnit(u) + t) == Parsed(u, t)
  {
    var a, b, c, d := u / 4096, u / 256 % 16, u / 16 % 16, u % 16;
    HexDigits(u);
    HexDigitValue(a);
    HexDigitValue(b);
    HexDigitValue(c);
    HexDigitValue(d);
    hide HexDigit, HexValue;
    var s := [BACKSLASH, 117, HexDigit(a), HexDigit(b), HexDigit(c), HexDigit(d)] + t;
    assert PrintUnit(u) + t == s;
    assert s[6..] == t;
  }

  lemma {:induction false} UnitsRoundTrip(name: Name, rest: Bytes)
    ensures ParseUnits(PrintUnits(name) + [QUOTE] + rest) == Parsed(name, rest)
  {
    if name == [] {
      assert (PrintUnits(name) + [QUOTE] + rest)[1..] == rest;
    } else {
      var tail := PrintUnits(name[1..]) + [QUOTE] + rest;
      assert PrintUnits(name) + [QUOTE] + rest == PrintUnit(name[0]) + tail;
      UnitRoundTrip(name[0], tail);
      UnitsRoundTrip(name[1..], rest);
      assert name == [name[0]] + name[1..];
    }
  }

  lemma NameRoundTrip(name: Name, rest: Bytes)
    ensures ParseName(PrintName(name) + rest) == Parsed(name, rest)
    ensures (PrintName(name) + rest)[0] == QUOTE
  {
    var s := PrintName(name) + rest;
    assert s[1..] == PrintUnits(name) + [QUOTE] + rest;
    UnitsRoundTrip(name, rest);
  }

  /** A printed value opens with a character that is neither space nor a closing bracket. */
  lemma FirstCharacter(v: Json)
    requires Printable(v)
    ensures Print(v) != [] && !IsSpace(Print(v)[0]) && Print(v)[0] != CLOSE_ARRAY && Print(v)[0] != CLOSE_OBJECT
  {
    if v.Int? {
      PrintNatDigits(if v.n < 0 then -v.n else v.n, []);
    }
  }

  lemma NoSkip(s: Bytes)
    requires s != [] && !IsSpace(s[0])
    ensures SkipSpace(s) == s
  {
  }

  lemma {:induction false} ValueRoundTrip(v: Json, rest: Bytes)
    requires Printable(v) && Delimited(rest)
    ensures ParseValue(Print(v) + rest) == Parsed(v, rest)
    decreases v, 0
  {
    match v
    case Null => assert (Print(v) + rest)[4..] == rest;
    case Bool(b) => LiteralRoundTrip(b, rest);
    case Int(n) => IntRoundTrip(n, rest);
    case Str(name) => NameRoundTrip(name, rest);
    case Arr(items) =>
      if items != [] { ItemsRoundTrip(items, rest); }
      ArrayWraps(items, rest);
    case Obj(fields) =>
      if fields != [] { FieldsRoundTrip(fields, rest); }
      ObjectWraps(fields, rest);
  }

  lemma ParsesArray(s: Bytes, t: Bytes, items: seq<Json>, rest: Bytes)
    requires s == [OPEN_ARRAY] + t && t != [] && SkipSpace(t) == t && t[0] != CLOSE_ARRAY
    requires ParseItems(t) == Parsed(items, rest)
    ensures ParseValue(s) == Parsed(Arr(items), rest)
  {
    assert s[1..] == t;
  }

  lemma ParsesObject(s: Bytes, t: Bytes, fields: seq<Member>, rest: Bytes)
    requires s == [OPEN_OBJECT] + t && t != [] && SkipSpace(t) == t && t[0] != CLOSE_OBJECT
    requires ParseFields(t) == Parsed(fields, rest) && UniqueNames(fields)
    ensures ParseValue(s) == Parsed(Obj(fields), rest)
  {
    assert s[1..] == t;
  }

  lemma ParsesEmpty(rest: Bytes)
    ensures ParseValue([OPEN_ARRAY, CLOSE_ARRAY] + rest) == Parsed(Arr([]), rest)
    ensures ParseValue([OPEN_OBJECT, CLOSE_OBJECT] + rest) == Parsed(Obj([]), rest)
  {
    var s, t := [OPEN_ARRAY, CLOSE_ARRAY] + rest, [OPEN_OBJECT, CLOSE_OBJECT] + rest;
    assert s[1..] == [CLOSE_ARRAY] + rest && s[1..][1..] == rest;
    assert t[1..] == [CLOSE_OBJECT] + rest && t[1..][1..] == rest;
  }

  lemma ArrayWraps(items: seq<Json>, rest: Bytes)
    requires Printable(Arr(items))
    requires items != [] ==> ParseItems(PrintItems(items) + rest) == Parsed(items, rest)
    ensures ParseValue(Print(Arr(items)) + rest) == Parsed(Arr(items), rest)
  {
    if items == [] {
      ParsesEmpty(rest);
    } else {
      var t := PrintItems(items) + rest;
      FirstCharacter(items[0]);
      ItemsOpen(items, rest);
      NoSkip(t);
      Regroup([OPEN_ARRAY], PrintItems(items), rest);
      hide ParseValue, ParseItems, PrintItems, SkipSpace;
      ParsesArray([OPEN_ARRAY] + t, t, items, rest);
    }
  }

  lemma ObjectWraps(fields: seq<Member>, rest: Bytes)
    requires Printable(Obj(fields))
    requires fields != [] ==> ParseFields(PrintFields(fields) + rest) == Parsed(fields, rest)
    ensures ParseValue(Print(Obj(fields)) + rest) == Parsed(Obj(fields), rest)
  {
    if fields == [] {
      ParsesEmpty(rest);
    } else {
      var t := PrintFields(fields) + rest;
      FieldsOpen(fields, rest);
      NoSkip(t);
      Regroup([OPEN_OBJECT], PrintFields(fields), rest);
      hide ParseValue, ParseFields, PrintFields, SkipSpace;
      ParsesObject([OPEN_OBJECT] + t, t, fields, rest);
    }
  }

  lemma LiteralRoundTrip(b: bool, rest: Bytes)
    ensures ParseValue(Print(Bool(b)) + rest) == Parsed(Bool(b), rest)
  {
    assert (Print(Bool(b)) + rest)[|Print(Bool(b))|..] == rest;
  }

  lemma ParsesItem(s: Bytes, v: Json, tail: Bytes)
    requires ParseValue(s) == Parsed(v, tail) && SkipSpace(tail) == tail && tail != []
    ensures tail[0] == CLOSE_ARRAY ==> ParseItems(s) == Parsed([v], tail[1..])
    ensures tail[0] == COMMA ==> forall vs, end :: ParseItems(SkipSpace(tail[1..])) == Parsed(vs, end) ==>
      ParseItems(s) == Parsed([v] + vs, end)
  {
  }

  lemma {:induction false} ItemsRoundTrip(items: seq<Json>, rest: Bytes)
    requires items != [] && forall i :: 0 <= i < |items| ==> Printable(items[i])
    ensures ParseItems(PrintItems(items) + rest) == Parsed(items, rest)
    decreases items, 1
  {
    var tail := (if |items| == 1 then [CLOSE_ARRAY] else [COMMA] + PrintItems(items[1..])) + rest;
    ItemsSplit(items, rest, tail);
    hide ParseValue, ParseItems, Print, Printable, PrintItems, SkipSpace;
    ValueRoundTrip(items[0], tail);
    NoSkip(tail);
    ParsesItem(Print(items[0]) + tail, items[0], tail);
    if |items| == 1 {
      assert items == [items[0]];
    } else {
      var t := PrintItems(items[1..]) + rest;
      FirstCharacter(items[1]);
      ItemsOpen(items[1..], rest);
      NoSkip(t);
      ItemsRoundTrip(items[1..], rest);
      assert items == [items[0]] + items[1..];
    }
  }

  lemma ParsesField(s: Bytes, name: Name, y: Bytes, v: Json, tail: Bytes)
    requires ParseName(s) == Parsed(name, [COLON] + y) && SkipSpace(y) == y
    requires ParseValue(y) == Parsed(v, tail) && SkipSpace(tail) == tail && tail != []
    ensures tail[0] == CLOSE_OBJECT ==> ParseFields(s) == Parsed([Member(name, v)], tail[1..])
    ensures tail[0] == COMMA ==> forall fs, end :: ParseFields(SkipSpace(tail[1..])) == Parsed(fs, end) ==>
      ParseFields(s) == Parsed([Member(name, v)] + fs, end)
  {
    NoSkip([COLON] + y);
    assert ([COLON] + y)[1..] == y;
  }

  lemma ItemsSplit(items: seq<Json>, rest: Bytes, tail: Bytes)
    requires items != []
    requires tail == (if |items| == 1 then [CLOSE_ARRAY] else [COMMA] + PrintItems(items[1..])) + rest
    ensures PrintItems(items) + rest == Print(items[0]) + tail
    ensures |items| == 1 ==> tail[0] == CLOSE_ARRAY && tail[1..] == rest
    ensures |items| > 1 ==> tail[0] == COMMA && tail[1..] == PrintItems(items[1..]) + rest
  {
    if |items| == 1 {
      Closing(CLOSE_ARRAY, rest);
      Regroup(Print(items[0]), [CLOSE_ARRAY], rest);
    } else {
      var more := PrintItems(items[1..]);
      Separated(COMMA, more, rest);
      Regroup(Print(items[0]), [COMMA] + more, rest);
    }
  }

  lemma Regroup(a: Bytes, b: Bytes, c: Bytes)
    ensures (a + b) + c == a + (b + c)
  {
  }

  lemma Closing(close: byte, rest: Bytes)
    ensures ([close] + rest)[0] == close && ([close] + rest)[1..] == rest
  {
  }

  lemma Separated(mark: byte, more: Bytes, rest: Bytes)
    ensures (([mark] + more) + rest)[0] == mark && (([mark] + more) + rest)[1..] == more + rest
  {
  }

  lemma ItemsOpen(items: seq<Json>, rest: Bytes)
    requires items != [] && Print(items[0]) != []
    ensures (PrintItems(items) + rest)[0] == Print(items[0])[0]
  {
  }

  lemma FieldsSplit(fields: seq<Member>, rest: Bytes, tail: Bytes)
    requires fields != []
    requires tail == (if |fields| == 1 then [CLOSE_OBJECT] else [COMMA] + PrintFields(fields[1..])) + rest
    ensures PrintFields(fields) + rest == PrintName(fields[0].name) + ([COLON] + (Print(fields[0].value) + tail))
    ensures |fields| == 1 ==> tail[0] == CLOSE_OBJECT && tail[1..] == rest
    ensures |fields| > 1 ==> tail[0] == COMMA && tail[1..] == PrintFields(fields[1..]) + rest
  {
    var name, v := PrintName(fields[0].name), Print(fields[0].value);
    if |fields| == 1 {
      Closing(CLOSE_OBJECT, rest);
      FieldGrouped(name, v, [CLOSE_OBJECT], rest);
    } else {
      var more := PrintFields(fields[1..]);
      Separated(COMMA, more, rest);
      FieldGrouped(name, v, [COMMA] + more, rest);
    }
  }

  lemma FieldGrouped(name: Bytes, v: Bytes, end: Bytes, rest: Bytes)
    ensures (name + [COLON] + v + end) + rest == name + ([COLON] + (v + (end + rest)))
  {
    Regroup(name + [COLON] + v, end, rest);
    Regroup(name + [COLON], v, end + rest);
    Regroup(name, [COLON], v + (end + rest));
  }

  lemma FieldsOpen(fields: seq<Member>, rest: Bytes)
    requires fields != []
    ensures (PrintFields(fields) + rest)[0] == QUOTE
  {
    assert PrintName(fields[0].name)[0] == QUOTE;
  }

  lemma {:induction false} FieldsRoundTrip(fields: seq<Member>, rest: Bytes)
    requires fields != [] && forall i :: 0 <= i < |fields| ==> Printable(fields[i].value)
    ensures ParseFields(PrintFields(fields) + rest) == Parsed(fields, rest)
    decreases fields, 1
  {
    var Member(name, v) := fields[0];
    var tail := (if |fields| == 1 then [CLOSE_OBJECT] else [COMMA] + PrintFields(fields[1..])) + rest;
    var y := Print(v) + tail;
    FieldsSplit(fields, rest, tail);
    hide ParseValue, ParseFields, ParseName, PrintName, Print, Printable, PrintFields, SkipSpace;
    NameRoundTrip(name, [COLON] + y);
    FirstCharacter(v);
    assert y[0] == Print(v)[0];
    NoSkip(y);
    ValueRoundTrip(v, tail);
    NoSkip(tail);
    ParsesField(PrintName(name) + ([COLON] + y), name, y, v, tail);
    if |fields| == 1 {
      assert fields == [Member(name, v)];
    } else {
      var t := PrintFields(fields[1..]) + rest;
      FieldsOpen(fields[1..], rest);
      NoSkip(t);
      FieldsRoundTrip(fields[1..], rest);
      assert fields == [Member(name, v)] + fields[1..];
    }
  }

  function Spaces(n: nat): (r: Bytes)
    ensures |r| == n
  {
    seq(n, _ => SPACE)
  }

  lemma {:induction false} SkipSpaces(n: nat)
    ensures SkipSpace(Spaces(n)) == []
  {
    if n > 0 {
      SkipSpaces(n - 1);
      assert Spaces(n)[1..] == Spaces(n - 1);
    }
  }

  /** Reading back a printed value gives that value, whatever padding of spaces follows it. */
  lemma LoadsPrinted(v: Json, padding: nat)
    requires Printable(v)
    ensures Loads(Print(v) + Spaces(padding)) == Some(v)
  {
    FirstCharacter(v);
    NoSkip(Print(v) + Spaces(padding));
    ValueRoundTrip(v, Spaces(padding));
    SkipSpaces(padding);
  }
}
