/** What a JSON text is (RFC 8259, sections 2 to 7), apart from any parser, and the parser's agreement with it. */
module JsonGrammar {
  import opened Basics
  import opened ByteStrings
  import opened Json

  // ---------- the grammar ----------

  ghost predicate White(w: Bytes) {
    forall i :: 0 <= i < |w| ==> w[i] in {32, 9, 10, 13}
  }

  ghost predicate Digits(t: Bytes) {
    t != [] && forall i :: 0 <= i < |t| ==> 48 <= t[i] <= 57
  }

  /** No zero stands in front of other digits. */
  ghost predicate Whole(t: Bytes) {
    Digits(t) && (t[0] == 48 ==> |t| == 1)
  }

  ghost predicate Fraction(t: Bytes) {
    |t| >= 2 && t[0] == 46 && Digits(t[1..])
  }

  ghost predicate Exponent(t: Bytes) {
    |t| >= 2 && t[0] in {69, 101} && (Digits(t[1..]) || (t[1] in {43, 45} && Digits(t[2..])))
  }

  /** A fraction, an exponent, both or neither. */
  ghost predicate Scale(f: Bytes, e: Bytes) {
    (f == [] || Fraction(f)) && (e == [] || Exponent(e))
  }

  ghost predicate NumberPieces(v: Json, sign: Bytes, a: Bytes, f: Bytes, e: Bytes) {
    && (sign == [] || sign == [45]) && Whole(a) && Scale(f, e)
    && v == (if f != [] || e != [] then Real(sign + a + f + e)
             else Int(if sign == [] then DigitsValue(a) else -(DigitsValue(a) as int)))
  }

  ghost predicate NumberText(v: Json, t: Bytes) {
    exists sign, a, f, e :: NumberPieces(v, sign, a, f, e) && t == sign + a + f + e
  }

  ghost predicate Hex(b: byte, d: int) {
    || (48 <= b <= 57 && d == b as int - 48)
    || (65 <= b <= 70 && d == b as int - 55)
    || (97 <= b <= 102 && d == b as int - 87)
  }

  /** How a code unit may be written. */
  ghost predicate UnitText(u: CodeUnit, t: Bytes) {
    || (|t| == 1 && 32 <= t[0] < 128 && t[0] != 34 && t[0] != 92 && u == t[0] as int)
    || (|t| == 2 && t[0] == 92 && Escape(t[1], u))
    || (|t| == 6 && t[0] == 92 && t[1] == 117 && FourHex(t[2..], u))
  }

  ghost predicate Escape(b: byte, u: CodeUnit) {
    || (b == 34 && u == 34) || (b == 92 && u == 92) || (b == 47 && u == 47) || (b == 98 && u == 8)
    || (b == 102 && u == 12) || (b == 110 && u == 10) || (b == 114 && u == 13) || (b == 116 && u == 9)
  }

  ghost predicate FourHex(t: Bytes, u: CodeUnit)
    requires |t| == 4
  {
    exists a, b, c, d :: Hex(t[0], a) && Hex(t[1], b) && Hex(t[2], c) && Hex(t[3], d)
      && u == 4096 * a + 256 * b + 16 * c + d
  }

  ghost predicate UnitsText(name: Name, t: Bytes)
    decreases |name|
  {
    if name == [] then t == []
    else exists k :: 0 <= k <= |t| && UnitText(name[0], t[..k]) && UnitsText(name[1..], t[k..])
  }

  ghost predicate NameText(name: Name, t: Bytes) {
    |t| >= 2 && t[0] == 34 && t[|t| - 1] == 34 && UnitsText(name, t[1..|t| - 1])
  }

  /** A text that spells a value. */
  ghost predicate ValueText(v: Json, t: Bytes)
    decreases |t|, 0
  {
    match v
    case Null => t == [110, 117, 108, 108]
    case Bool(b) => t == if b then [116, 114, 117, 101] else [102, 97, 108, 115, 101]
    case Int(_) => NumberText(v, t)
    case Real(_) => NumberText(v, t)
    case Str(name) => NameText(name, t)
    case Arr(items) =>
      && |t| >= 2 && t[0] == 91 && t[|t| - 1] == 93
      && (if items == [] then White(t[1..|t| - 1]) else ItemsText(items, t[1..|t| - 1]))
    case Obj(fields) =>
      && |t| >= 2 && t[0] == 123 && t[|t| - 1] == 125 && NoNameTwice(fields)
      && (if fields == [] then White(t[1..|t| - 1]) else FieldsText(fields, t[1..|t| - 1]))
  }

  ghost predicate NoNameTwice(fields: seq<Member>) {
    forall i, j :: 0 <= i < j < |fields| ==> fields[i].name != fields[j].name
  }

  /** A value with white space around it. */
  ghost predicate Padded(v: Json, t: Bytes)
    decreases |t|, 1
  {
    exists i, j :: 0 <= i <= j <= |t| && White(t[..i]) && ValueText(v, t[i..j]) && White(t[j..])
  }

  /** Items between commas. */
  ghost predicate ItemsText(items: seq<Json>, t: Bytes)
    requires items != []
    decreases |t|, 2
  {
    if |items| == 1 then Padded(items[0], t)
    else exists k :: 0 <= k < |t| && t[k] == 44 && Padded(items[0], t[..k]) && ItemsText(items[1..], t[k + 1..])
  }

  ghost predicate FieldText(m: Member, t: Bytes)
    decreases |t|, 2
  {
    exists h, i, k :: 0 <= h <= i <= k < |t| && t[k] == 58
      && White(t[..h]) && NameText(m.name, t[h..i]) && White(t[i..k]) && Padded(m.value, t[k + 1..])
  }

  ghost predicate FieldsText(fields: seq<Member>, t: Bytes)
    requires fields != []
    decreases |t|, 3
  {
    if |fields| == 1 then FieldText(fields[0], t)
    else exists k :: 0 <= k < |t| && t[k] == 44 && FieldText(fields[0], t[..k]) && FieldsText(fields[1..], t[k + 1..])
  }

  // ---------- every text of a value is read as that value ----------

  lemma {:induction false} SkipWhite(w: Bytes, s: Bytes)
    requires White(w)
    ensures SkipSpace(w + s) == SkipSpace(s)
  {
    if w == [] {
      assert w + s == s;
    } else {
      assert (w + s)[1..] == w[1..] + s;
      SkipWhite(w[1..], s);
    }
  }

  /** Nothing that may follow a number goes on with it. */
  lemma DigitRun(t: Bytes, rest: Bytes)
    requires Digits(t) && (rest == [] || !IsDigit(rest[0]))
    ensures DigitCount(t + rest) == |t|
  {
    CountRun(t, rest);
  }

  lemma FractionTaken(f: Bytes, rest: Bytes)
    requires (f == [] && (rest == [] || rest[0] != 46)) || (Fraction(f) && (rest == [] || !IsDigit(rest[0])))
    ensures FractionLength(f + rest) == |f|
  {
    if f == [] {
      assert f + rest == rest;
    } else {
      assert (f + rest)[1..] == f[1..] + rest;
      DigitRun(f[1..], rest);
    }
  }

  lemma ExponentTaken(e: Bytes, rest: Bytes)
    requires (e == [] || Exponent(e)) && Delimited(rest)
    ensures ExponentLength(e + rest) == |e|
  {
    if e == [] {
      assert e + rest == rest;
    } else if Digits(e[1..]) {
      assert (e + rest)[1..] == e[1..] + rest && (e + rest)[1] == e[1];
      DigitRun(e[1..], rest);
    } else {
      assert (e + rest)[2..] == e[2..] + rest && (e + rest)[2] == e[2];
      DigitRun(e[2..], rest);
    }
  }

  lemma TailTaken(f: Bytes, e: Bytes, rest: Bytes)
    requires Scale(f, e) && Delimited(rest)
    ensures TailLength(f + (e + rest)) == |f| + |e|
  {
    assert e != [] ==> (e + rest)[0] == e[0];
    assert e == [] ==> e + rest == rest;
    FractionTaken(f, e + rest);
    ExponentTaken(e, rest);
    assert (f + (e + rest))[|f|..] == e + rest;
  }

  lemma WholeTaken(a: Bytes, rest: Bytes)
    requires Whole(a) && (rest == [] || !IsDigit(rest[0]))
    ensures IntegerLength(a + rest) == |a|
  {
    DigitRun(a, rest);
  }

  lemma AfterWhole(f: Bytes, e: Bytes, rest: Bytes)
    requires Scale(f, e) && Delimited(rest)
    ensures var after := f + (e + rest); after == [] || !IsDigit(after[0])
  {
    var after := f + (e + rest);
    if f != [] {
      assert after[0] == f[0];
    } else if e != [] {
      assert after[0] == e[0];
    } else {
      assert after == rest;
    }
  }

  lemma Signed(sign: Bytes, body: Bytes)
    requires sign == [] || sign == [45]
    ensures if sign == [45] then (sign + body)[0] == MINUS && (sign + body)[1..] == body else sign + body == body
  {
  }

  lemma Grouped(a: Bytes, b: Bytes, c: Bytes, d: Bytes, e: Bytes)
    ensures a + b + c + d + e == a + (b + (c + (d + e)))
  {
  }

  lemma NumberRead(v: Json, sign: Bytes, a: Bytes, f: Bytes, e: Bytes, rest: Bytes)
    requires NumberPieces(v, sign, a, f, e) && Delimited(rest)
    ensures ParseNumber(sign + a + f + e + rest) == Parsed(v, rest)
  {
    var body := a + (f + (e + rest));
    AfterWhole(f, e, rest);
    WholeTaken(a, f + (e + rest));
    TailTaken(f, e, rest);
    Signed(sign, body);
    Grouped(sign, a, f, e, rest);
    assert body[0] == a[0];
    hide *;
    NumberCut(v, sign + a + f + e + rest, sign, a, f, e, rest);
  }

  lemma NumberCut(v: Json, s: Bytes, sign: Bytes, a: Bytes, f: Bytes, e: Bytes, rest: Bytes)
    requires NumberPieces(v, sign, a, f, e) && s == sign + a + f + e + rest
    requires var body := a + (f + (e + rest));
      && IntegerLength(body) == |a| && TailLength(f + (e + rest)) == |f| + |e|
      && (if sign == [45] then s[0] == MINUS && s[1..] == body else s == body) && body[0] == a[0]
    ensures ParseNumber(s) == Parsed(v, rest)
  {
    hide DigitsValue, IntegerLength, TailLength, Fraction, Exponent;
    var after := f + (e + rest);
    var body := a + after;
    assert body[..|a|] == a && body[|a|..] == after;
    assert body[|a| + (|f| + |e|)..] == rest;
    assert s[..|s| - |rest|] == sign + a + f + e;
  }

  lemma UnitRead(u: CodeUnit, t: Bytes, rest: Bytes)
    requires UnitText(u, t)
    ensures ParseUnit(t + rest) == Parsed(u, rest) && (t + rest)[0] != QUOTE
  {
    var s := t + rest;
    assert s[|t|..] == rest && forall i :: 0 <= i < |t| ==> s[i] == t[i];
    if |t| == 6 {
      assert t[2..][0] == t[2] && t[2..][1] == t[3] && t[2..][2] == t[4] && t[2..][3] == t[5];
    }
  }

  lemma SplitAt(t: Bytes, k: nat, end: Bytes)
    requires k <= |t|
    ensures t + end == t[..k] + (t[k..] + end)
  {
    assert t == t[..k] + t[k..];
  }

  lemma UnitsStep(s: Bytes, u: CodeUnit, r: Bytes, us: Name, end: Bytes)
    requires s != [] && s[0] != QUOTE && ParseUnit(s) == Parsed(u, r) && ParseUnits(r) == Parsed(us, end)
    ensures ParseUnits(s) == Parsed([u] + us, end)
  {
    hide ParseUnit;
  }

  lemma UnitsEnd(rest: Bytes)
    ensures ParseUnits([QUOTE] + rest) == Parsed([], rest)
  {
    assert ([QUOTE] + rest)[1..] == rest;
  }

  lemma {:induction false} UnitsRead(name: Name, t: Bytes, rest: Bytes)
    requires UnitsText(name, t)
    ensures ParseUnits(t + ([QUOTE] + rest)) == Parsed(name, rest)
    decreases |name|
  {
    var end := [QUOTE] + rest;
    if name == [] {
      assert t + end == end;
      UnitsEnd(rest);
    } else {
      var k :| 0 <= k <= |t| && UnitText(name[0], t[..k]) && UnitsText(name[1..], t[k..]);
      UnitRead(name[0], t[..k], t[k..] + end);
      UnitsRead(name[1..], t[k..], rest);
      assert name == [name[0]] + name[1..];
      hide *;
      SplitAt(t, k, end);
      UnitsStep(t + end, name[0], t[k..] + end, name[1..], rest);
    }
  }

  lemma NameRead(name: Name, t: Bytes, rest: Bytes)
    requires NameText(name, t)
    ensures ParseName(t + rest) == Parsed(name, rest)
  {
    var n := |t| - 1;
    UnitsRead(name, t[1..n], rest);
    Bracketed(t, QUOTE, QUOTE, rest);
    NameOpens(t[1..n] + ([QUOTE] + rest));
    hide *;
  }

  lemma NameOpens(x: Bytes)
    ensures ParseName([QUOTE] + x) == ParseUnits(x)
  {
    assert ([QUOTE] + x)[1..] == x;
    hide ParseUnits;
  }

  /** What a value opens with. */
  lemma ValueHead(v: Json, t: Bytes)
    requires ValueText(v, t)
    ensures t != [] && !IsSpace(t[0]) && t[0] != CLOSE_ARRAY && t[0] != CLOSE_OBJECT
    ensures (v.Int? || v.Real?) ==> t[0] == MINUS || IsDigit(t[0])
  {
    if v.Int? || v.Real? {
      var sign, a, f, e :| NumberPieces(v, sign, a, f, e) && t == sign + a + f + e;
      assert t[0] == if sign == [] then a[0] else 45;
    }
  }

  lemma {:induction false} ValueRead(v: Json, t: Bytes, rest: Bytes)
    requires ValueText(v, t) && Delimited(rest)
    ensures ParseValue(t + rest) == Parsed(v, rest)
    decreases |t|, 0
  {
    ValueHead(v, t);
    var s := t + rest;
    assert s[0] == t[0];
    match v
    case Null => assert s[4..] == rest && s[..4] == t;
    case Bool(b) => LiteralRoundTrip(b, rest);
    case Int(_) => NumberValueRead(v, t, rest);
    case Real(_) => NumberValueRead(v, t, rest);
    case Str(name) => NameRead(name, t, rest);
    case Arr(items) =>
      var body, end := t[1..|t| - 1], [CLOSE_ARRAY] + rest;
      Bracketed(t, OPEN_ARRAY, CLOSE_ARRAY, rest);
      if items == [] {
        SkipWhite(body, end);
        EmptyRead(s, body, end, rest);
      } else {
        ItemsRead(items, body, rest);
        ArrayRead(s, body + end, items, rest);
      }
    case Obj(fields) =>
      var body, end := t[1..|t| - 1], [CLOSE_OBJECT] + rest;
      Bracketed(t, OPEN_OBJECT, CLOSE_OBJECT, rest);
      if fields == [] {
        SkipWhite(body, end);
        EmptyRead(s, body, end, rest);
      } else {
        FieldsRead(fields, body, rest);
        ObjectRead(s, body + end, fields, rest);
      }
  }

  lemma Bracketed(t: Bytes, open: byte, close: byte, rest: Bytes)
    requires |t| >= 2 && t[0] == open && t[|t| - 1] == close
    ensures t + rest == [open] + (t[1..|t| - 1] + ([close] + rest))
  {
    assert t == [open] + t[1..|t| - 1] + [close];
  }

  lemma NumberValueRead(v: Json, t: Bytes, rest: Bytes)
    requires (v.Int? || v.Real?) && NumberText(v, t) && Delimited(rest)
    ensures ParseValue(t + rest) == Parsed(v, rest)
  {
    var sign, a, f, e :| NumberPieces(v, sign, a, f, e) && t == sign + a + f + e;
    NumberRead(v, sign, a, f, e, rest);
    var body := a + (f + (e + rest));
    Grouped(sign, a, f, e, rest);
    assert body[0] == a[0] && IsDigit(body[0]);
    Signed(sign, body);
    OpensNumber(body);
    hide *;
    assert sign == [45] ==> t + rest == [MINUS] + body;
  }

  lemma EmptyRead(s: Bytes, body: Bytes, end: Bytes, rest: Bytes)
    requires SkipSpace(body + end) == SkipSpace(end)
    ensures s == [OPEN_ARRAY] + (body + end) && end == [CLOSE_ARRAY] + rest ==> ParseValue(s) == Parsed(Arr([]), rest)
    ensures s == [OPEN_OBJECT] + (body + end) && end == [CLOSE_OBJECT] + rest ==> ParseValue(s) == Parsed(Obj([]), rest)
  {
    hide ParseItems, ParseFields, ParseName, ParseNumber, ParseLiteral;
    assert s == [OPEN_ARRAY] + (body + end) || s == [OPEN_OBJECT] + (body + end) ==> s[1..] == body + end;
    assert end == [CLOSE_ARRAY] + rest || end == [CLOSE_OBJECT] + rest ==> end[1..] == rest && SkipSpace(end) == end;
  }

  lemma ArrayRead(s: Bytes, t: Bytes, items: seq<Json>, rest: Bytes)
    requires s == [OPEN_ARRAY] + t && ParseItems(SkipSpace(t)) == Parsed(items, rest)
    requires SkipSpace(t) != [] && SkipSpace(t)[0] != CLOSE_ARRAY
    ensures ParseValue(s) == Parsed(Arr(items), rest)
  {
    assert s[1..] == t;
    hide ParseItems, ParseFields, SkipSpace;
  }

  lemma ObjectRead(s: Bytes, t: Bytes, fields: seq<Member>, rest: Bytes)
    requires s == [OPEN_OBJECT] + t && ParseFields(SkipSpace(t)) == Parsed(fields, rest)
    requires SkipSpace(t) != [] && SkipSpace(t)[0] != CLOSE_OBJECT && NoNameTwice(fields)
    ensures ParseValue(s) == Parsed(Obj(fields), rest)
  {
    assert s[1..] == t;
    hide ParseItems, ParseFields, SkipSpace;
  }

  /** A value between white space, up to a mark that ends it. */
  lemma {:induction false} PaddedRead(v: Json, t: Bytes, end: Bytes) returns (w: Bytes)
    requires Padded(v, t) && end != [] && end[0] in {44, 93, 125}
    ensures ParseValue(SkipSpace(t + end)) == Parsed(v, w + end) && SkipSpace(w + end) == end
    ensures SkipSpace(t + end) != [] && SkipSpace(t + end)[0] != CLOSE_ARRAY
    decreases |t|, 1
  {
    var i, j :| 0 <= i <= j <= |t| && White(t[..i]) && ValueText(v, t[i..j]) && White(t[j..]);
    var x := t[i..j];
    w := t[j..];
    ThreeParts(t, i, j, end);
    ValueHead(v, x);
    AfterValue(w, end);
    ValueRead(v, x, w + end);
    assert (x + (w + end))[0] == x[0];
    hide ParseValue, ValueText, Padded;
    SkipWhite(t[..i], x + (w + end));
    NoSkip(x + (w + end));
    SkipWhite(w, end);
    NoSkip(end);
  }

  lemma ThreeParts(t: Bytes, i: nat, j: nat, end: Bytes)
    requires i <= j <= |t|
    ensures t + end == t[..i] + (t[i..j] + (t[j..] + end))
  {
    assert t == t[..i] + t[i..j] + t[j..];
  }

  lemma AfterValue(w: Bytes, end: Bytes)
    requires White(w) && end != [] && end[0] in {44, 93, 125}
    ensures Delimited(w + end)
  {
    if w != [] {
      assert (w + end)[0] == w[0];
    } else {
      assert w + end == end;
    }
  }

  lemma {:induction false} ItemsRead(items: seq<Json>, t: Bytes, rest: Bytes)
    requires items != [] && ItemsText(items, t)
    ensures var s := SkipSpace(t + ([CLOSE_ARRAY] + rest));
      ParseItems(s) == Parsed(items, rest) && s != [] && s[0] != CLOSE_ARRAY
    decreases |t|, 2
  {
    var end := [CLOSE_ARRAY] + rest;
    assert end[1..] == rest;
    if |items| == 1 {
      var w := PaddedRead(items[0], t, end);
      assert items == [items[0]];
      hide *;
      ItemRead(SkipSpace(t + end), items[0], w + end, end);
    } else {
      var k :| 0 <= k < |t| && t[k] == 44 && Padded(items[0], t[..k]) && ItemsText(items[1..], t[k + 1..]);
      var more := [COMMA] + (t[k + 1..] + end);
      var w := PaddedRead(items[0], t[..k], more);
      ItemsRead(items[1..], t[k + 1..], rest);
      assert items == [items[0]] + items[1..];
      hide *;
      CommaSplit(t, k, end);
      ItemComma(SkipSpace(t + end), items[0], w + more, more, items[1..], rest);
    }
  }

  lemma ItemRead(s: Bytes, v: Json, after: Bytes, end: Bytes)
    requires ParseValue(s) == Parsed(v, after) && SkipSpace(after) == end && end != [] && end[0] == CLOSE_ARRAY
    ensures ParseItems(s) == Parsed([v], end[1..])
  {
    hide ParseValue, SkipSpace;
  }

  lemma ItemComma(s: Bytes, v: Json, after: Bytes, end: Bytes, vs: seq<Json>, rest: Bytes)
    requires ParseValue(s) == Parsed(v, after) && SkipSpace(after) == end && end != [] && end[0] == COMMA
    requires ParseItems(SkipSpace(end[1..])) == Parsed(vs, rest)
    ensures ParseItems(s) == Parsed([v] + vs, rest)
  {
    hide ParseValue, SkipSpace;
  }

  /** A name, a colon and a value, up to a mark that ends them. */
  lemma {:induction false} FieldRead(m: Member, t: Bytes, end: Bytes)
    requires FieldText(m, t) && end != [] && end[0] in {44, 125}
    ensures SkipSpace(t + end) != [] && SkipSpace(t + end)[0] == QUOTE
    ensures end[0] == CLOSE_OBJECT ==> ParseFields(SkipSpace(t + end)) == Parsed([m], end[1..])
    ensures end[0] == COMMA ==> forall fs, rest ::
      ParseFields(SkipSpace(end[1..])) == Parsed(fs, rest) ==> ParseFields(SkipSpace(t + end)) == Parsed([m] + fs, rest)
    decreases |t|, 2
  {
    var h, i, k :| 0 <= h <= i <= k < |t| && t[k] == 58
      && White(t[..h]) && NameText(m.name, t[h..i]) && White(t[i..k]) && Padded(m.value, t[k + 1..]);
    var x, gap, y := t[h..i], t[i..k], t[k + 1..];
    var colon := [COLON] + (y + end);
    FieldSplit(t, h, i, k, end);
    var w := PaddedRead(m.value, y, end);
    assert colon[1..] == y + end && x[0] == QUOTE;
    NameRead(m.name, x, gap + colon);
    hide ParseName, ParseValue, ParseFields, NameText, Padded, White, FieldText;
    SkipWhite(t[..h], x + (gap + colon));
    NoSkip(x + (gap + colon));
    SkipWhite(gap, colon);
    NoSkip(colon);
    hide SkipSpace;
    FieldTaken(x + (gap + colon), m, gap + colon, colon, w + end, end);
  }

  lemma FieldSplit(t: Bytes, h: nat, i: nat, k: nat, end: Bytes)
    requires h <= i <= k < |t| && t[k] == 58
    ensures t + end == t[..h] + (t[h..i] + (t[i..k] + ([COLON] + (t[k + 1..] + end))))
  {
    assert t == t[..h] + t[h..i] + t[i..k] + [COLON] + t[k + 1..];
  }

  lemma FieldTaken(s: Bytes, m: Member, afterName: Bytes, colon: Bytes, after: Bytes, end: Bytes)
    requires ParseName(s) == Parsed(m.name, afterName) && SkipSpace(afterName) == colon
    requires colon != [] && colon[0] == COLON
    requires ParseValue(SkipSpace(colon[1..])) == Parsed(m.value, after) && SkipSpace(after) == end && end != []
    ensures end[0] == CLOSE_OBJECT ==> ParseFields(s) == Parsed([m], end[1..])
    ensures end[0] == COMMA ==> forall fs, rest ::
      ParseFields(SkipSpace(end[1..])) == Parsed(fs, rest) ==> ParseFields(s) == Parsed([m] + fs, rest)
  {
    hide ParseName, ParseValue, SkipSpace;
  }

  lemma {:induction false} FieldsRead(fields: seq<Member>, t: Bytes, rest: Bytes)
    requires fields != [] && FieldsText(fields, t)
    ensures var s := SkipSpace(t + ([CLOSE_OBJECT] + rest));
      ParseFields(s) == Parsed(fields, rest) && s != [] && s[0] != CLOSE_OBJECT
    decreases |t|, 3
  {
    var end := [CLOSE_OBJECT] + rest;
    assert end[1..] == rest && end[0] == CLOSE_OBJECT && QUOTE != CLOSE_OBJECT;
    hide ParseFields, SkipSpace, FieldText, FieldsText;
    if |fields| == 1 {
      assert fields == [fields[0]];
      OneField(fields[0], t);
      FieldRead(fields[0], t, end);
    } else {
      var k := FieldsParts(fields, t);
      var more := [COMMA] + (t[k + 1..] + end);
      FieldsRead(fields[1..], t[k + 1..], rest);
      FieldRead(fields[0], t[..k], more);
      CommaSplit(t, k, end);
      assert fields == [fields[0]] + fields[1..] && more[0] == COMMA;
    }
  }

  lemma CommaSplit(t: Bytes, k: nat, end: Bytes)
    requires k < |t| && t[k] == COMMA
    ensures t + end == t[..k] + ([COMMA] + (t[k + 1..] + end))
    ensures ([COMMA] + (t[k + 1..] + end))[1..] == t[k + 1..] + end
  {
    assert t == t[..k] + [COMMA] + t[k + 1..];
  }

  // ---------- whatever is read as a value spells it ----------

  lemma {:induction false} Skipped(s: Bytes) returns (n: nat)
    ensures n <= |s| && SkipSpace(s) == s[n..] && White(s[..n])
  {
    n := 0;
    if s != [] && IsSpace(s[0]) {
      var m := Skipped(s[1..]);
      n := m + 1;
      assert s[n..] == s[1..][m..];
      assert s[..n] == [s[0]] + s[1..][..m];
    }
  }

  lemma FractionSpelled(s: Bytes)
    ensures var f := s[..FractionLength(s)]; f == [] || Fraction(f)
  {
    var n := FractionLength(s);
    if n > 0 { assert s[..n][1..] == s[1..][..n - 1]; }
  }

  lemma ExponentSpelled(s: Bytes)
    ensures var e := s[..ExponentLength(s)]; e == [] || Exponent(e)
  {
    var n := ExponentLength(s);
    if n > 0 {
      assert s[..n][1..] == s[1..][..n - 1];
      if !IsDigit(s[1]) { assert s[..n][2..] == s[2..][..n - 2]; }
    }
  }

  /** What the parser found out about a number. */
  lemma NumberOpened(s: Bytes, v: Json, rest: Bytes)
    requires ParseNumber(s) == Parsed(v, rest)
    ensures var negative := s != [] && s[0] == MINUS;
      var body := if negative then s[1..] else s;
      && body != [] && IsDigit(body[0])
      && var k := IntegerLength(body);
         var t := TailLength(body[k..]);
         && rest == body[k + t..]
         && v == (if t > 0 then Real(s[..|s| - |rest|])
                  else Int(if negative then -(DigitsValue(body[..k]) as int) else DigitsValue(body[..k])))
  {
    hide DigitsValue, IntegerLength, TailLength;
  }

  lemma WholeSpelled(body: Bytes)
    requires body != [] && IsDigit(body[0])
    ensures Whole(body[..IntegerLength(body)])
  {
    assert body[..IntegerLength(body)][0] == body[0];
  }

  lemma NumberSpelled(s: Bytes, v: Json, rest: Bytes) returns (n: nat)
    requires ParseNumber(s) == Parsed(v, rest)
    ensures 0 < n <= |s| && rest == s[n..] && (v.Int? || v.Real?) && NumberText(v, s[..n])
  {
    hide *;
    NumberOpened(s, v, rest);
    var sign: Bytes := if s != [] && s[0] == MINUS then [45] else [];
    var body := if s != [] && s[0] == MINUS then s[1..] else s;
    var k := IntegerLength(body);
    var t := TailLength(body[k..]);
    n := |sign| + (k + t);
    SignSplit(s, sign, body, k + t);
    WholeSpelled(body);
    NumberFound(sign, body, v, k, t);
  }

  lemma SignSplit(s: Bytes, sign: Bytes, body: Bytes, m: nat)
    requires (s == body && sign == []) || (s != [] && s[0] == MINUS && body == s[1..] && sign == [45])
    requires m <= |body|
    ensures var n := |sign| + m;
      n <= |s| && s[n..] == body[m..] && s[..n] == sign + body[..m] && s[..|s| - |body[m..]|] == s[..n]
  {
  }

  lemma NumberFound(sign: Bytes, body: Bytes, v: Json, k: nat, t: nat)
    requires (sign == [] || sign == [45]) && k <= |body| && Whole(body[..k])
    requires t == TailLength(body[k..]) && k + t <= |body|
    requires v == (if t > 0 then Real(sign + body[..k + t])
                   else Int(if sign == [45] then -(DigitsValue(body[..k]) as int) else DigitsValue(body[..k])))
    ensures (v.Int? || v.Real?) && NumberText(v, sign + body[..k + t])
  {
    var after := body[k..];
    TailIsBoth(after);
    var f := FractionLength(after);
    var e := ExponentLength(after[f..]);
    FractionSpelled(after);
    ExponentSpelled(after[f..]);
    TailPieces(sign, body, k, f, e);
    hide *;
    NumberAssembled(v, sign, body[..k], after[..f], after[f..][..e], sign + body[..k + t]);
  }

  lemma TailPieces(sign: Bytes, body: Bytes, k: nat, f: nat, e: nat)
    requires k + f + e <= |body|
    ensures sign + body[..k + (f + e)] == sign + body[..k] + body[k..][..f] + body[k..][f..][..e]
  {
  }

  lemma NumberAssembled(v: Json, sign: Bytes, a: Bytes, f: Bytes, e: Bytes, t: Bytes)
    requires (sign == [] || sign == [45]) && Whole(a) && (f == [] || Fraction(f)) && (e == [] || Exponent(e))
    requires t == sign + a + f + e
    requires v == (if |f| + |e| > 0 then Real(t)
                   else Int(if sign == [] then DigitsValue(a) else -(DigitsValue(a) as int)))
    ensures (v.Int? || v.Real?) && NumberText(v, t)
  {
    hide DigitsValue, Fraction, Exponent;
    assert NumberPieces(v, sign, a, f, e);
  }

  lemma TailIsBoth(after: Bytes)
    ensures var f := FractionLength(after); TailLength(after) == f + ExponentLength(after[f..])
  {
  }

  lemma UnitSpelled(s: Bytes, u: CodeUnit, rest: Bytes) returns (n: nat)
    requires ParseUnit(s) == Parsed(u, rest) && s[0] != QUOTE
    ensures 0 < n <= |s| && rest == s[n..] && UnitText(u, s[..n])
  {
    n := if s[0] != BACKSLASH then 1 else if s[1] != 117 then 2 else 6;
    var t := s[..n];
    if n == 6 {
      var a, b, c, d := HexValue(s[2]), HexValue(s[3]), HexValue(s[4]), HexValue(s[5]);
      assert t[2..][0] == s[2] && t[2..][1] == s[3] && t[2..][2] == s[4] && t[2..][3] == s[5];
      assert Hex(s[2], a) && Hex(s[3], b) && Hex(s[4], c) && Hex(s[5], d);
      assert u == 4096 * a + 256 * b + 16 * c + d;
      assert FourHex(t[2..], u);
    }
  }

  lemma {:induction false} UnitsSpelled(s: Bytes, name: Name, rest: Bytes) returns (n: nat)
    requires ParseUnits(s) == Parsed(name, rest)
    ensures 0 < n <= |s| && rest == s[n..] && s[n - 1] == QUOTE && UnitsText(name, s[..n - 1])
    decreases |s|
  {
    if s != [] && s[0] == QUOTE {
      n := 1;
      assert s[..0] == [];
    } else {
      var u, r := ParseUnit(s).value, ParseUnit(s).rest;
      var us := ParseUnits(r).value;
      UnitNotEmpty(s);
      var k := UnitSpelled(s, u, r);
      var m := UnitsSpelled(r, us, rest);
      n := k + m;
      hide ParseUnit, ParseUnits, UnitText;
      assert s[k..][m..] == s[n..] && s[k..][m - 1] == s[n - 1];
      assert s[..n - 1][..k] == s[..k] && s[..n - 1][k..] == s[k..][..m - 1];
      assert name == [u] + us && name[1..] == us;
    }
  }

  lemma UnitNotEmpty(s: Bytes)
    ensures ParseUnit(s).Parsed? ==> s != []
  {
  }

  lemma NameSpelled(s: Bytes, name: Name, rest: Bytes) returns (n: nat)
    requires ParseName(s) == Parsed(name, rest)
    ensures 0 < n <= |s| && rest == s[n..] && NameText(name, s[..n])
  {
    var m := UnitsSpelled(s[1..], name, rest);
    n := m + 1;
    hide *;
    NameBounds(s, m);
    NameAssembled(name, s, n);
  }

  lemma NameBounds(s: Bytes, m: nat)
    requires s != [] && m <= |s| - 1
    ensures s[1..][m..] == s[m + 1..] && (m > 0 ==> s[1..][m - 1] == s[m] && s[1..][..m - 1] == s[..m + 1][1..m])
  {
  }

  lemma NameAssembled(name: Name, s: Bytes, n: nat)
    requires 2 <= n <= |s| && s[0] == QUOTE && s[n - 1] == QUOTE && UnitsText(name, s[..n][1..n - 1])
    ensures NameText(name, s[..n])
  {
  }

  /** White space, what was read, and white space again. */
  lemma PaddedSpelled(v: Json, t: Bytes, i: nat, j: nat)
    requires i <= j <= |t| && White(t[..i]) && ValueText(v, t[i..j]) && White(t[j..])
    ensures Padded(v, t)
  {
  }

  lemma WhiteJoins(a: Bytes, b: Bytes)
    requires White(a) && White(b)
    ensures White(a + b)
  {
  }

  lemma Shifted(w: Bytes, t: Bytes, a: nat, b: nat)
    requires a <= b <= |t|
    ensures (w + t)[|w| + a..|w| + b] == t[a..b] && (w + t)[..|w| + b] == w + t[..b] && (w + t)[|w| + b..] == t[b..]
    ensures b < |t| ==> (w + t)[|w| + b] == t[b]
  {
  }

  lemma PaddedParts(v: Json, t: Bytes) returns (i: nat, j: nat)
    requires Padded(v, t)
    ensures i <= j <= |t| && White(t[..i]) && ValueText(v, t[i..j]) && White(t[j..])
  {
    i, j :| 0 <= i <= j <= |t| && White(t[..i]) && ValueText(v, t[i..j]) && White(t[j..]);
  }

  lemma PaddedAhead(v: Json, w: Bytes, t: Bytes)
    requires White(w) && Padded(v, t)
    ensures Padded(v, w + t)
  {
    hide *;
    var i, j := PaddedParts(v, t);
    WhiteJoins(w, t[..i]);
    Shifted(w, t, i, j);
    Shifted(w, t, 0, i);
    PaddedSpelled(v, w + t, |w| + i, |w| + j);
  }

  lemma ItemsParts(items: seq<Json>, t: Bytes) returns (k: nat)
    requires |items| > 1 && ItemsText(items, t)
    ensures k < |t| && t[k] == 44 && Padded(items[0], t[..k]) && ItemsText(items[1..], t[k + 1..])
  {
    k :| 0 <= k < |t| && t[k] == 44 && Padded(items[0], t[..k]) && ItemsText(items[1..], t[k + 1..]);
  }

  lemma ItemsSpelled(items: seq<Json>, t: Bytes, k: nat)
    requires |items| > 1 && k < |t| && t[k] == 44 && Padded(items[0], t[..k]) && ItemsText(items[1..], t[k + 1..])
    ensures ItemsText(items, t)
  {
  }

  lemma OneItem(v: Json, t: Bytes)
    ensures ItemsText([v], t) <==> Padded(v, t)
  {
  }

  lemma ItemsAhead(items: seq<Json>, w: Bytes, t: Bytes)
    requires White(w) && items != [] && ItemsText(items, t)
    ensures ItemsText(items, w + t)
  {
    hide *;
    if |items| == 1 {
      assert items == [items[0]];
      OneItem(items[0], t);
      OneItem(items[0], w + t);
      PaddedAhead(items[0], w, t);
    } else {
      var k := ItemsParts(items, t);
      PaddedAhead(items[0], w, t[..k]);
      Shifted(w, t, 0, k);
      Shifted(w, t, k, k + 1);
      ItemsSpelled(items, w + t, |w| + k);
    }
  }

  lemma FieldParts(m: Member, t: Bytes) returns (h: nat, i: nat, k: nat)
    requires FieldText(m, t)
    ensures h <= i <= k < |t| && t[k] == 58
    ensures White(t[..h]) && NameText(m.name, t[h..i]) && White(t[i..k]) && Padded(m.value, t[k + 1..])
  {
    h, i, k :| 0 <= h <= i <= k < |t| && t[k] == 58
      && White(t[..h]) && NameText(m.name, t[h..i]) && White(t[i..k]) && Padded(m.value, t[k + 1..]);
  }

  lemma FieldSpelled(m: Member, t: Bytes, h: nat, i: nat, k: nat)
    requires h <= i <= k < |t| && t[k] == 58
    requires White(t[..h]) && NameText(m.name, t[h..i]) && White(t[i..k]) && Padded(m.value, t[k + 1..])
    ensures FieldText(m, t)
  {
  }

  lemma FieldAhead(m: Member, w: Bytes, t: Bytes)
    requires White(w) && FieldText(m, t)
    ensures FieldText(m, w + t)
  {
    hide *;
    var h, i, k := FieldParts(m, t);
    WhiteJoins(w, t[..h]);
    Shifted(w, t, 0, h);
    Shifted(w, t, h, i);
    Shifted(w, t, i, k);
    Shifted(w, t, k, k + 1);
    FieldSpelled(m, w + t, |w| + h, |w| + i, |w| + k);
  }

  lemma FieldsParts(fields: seq<Member>, t: Bytes) returns (k: nat)
    requires |fields| > 1 && FieldsText(fields, t)
    ensures k < |t| && t[k] == 44 && FieldText(fields[0], t[..k]) && FieldsText(fields[1..], t[k + 1..])
  {
    k :| 0 <= k < |t| && t[k] == 44 && FieldText(fields[0], t[..k]) && FieldsText(fields[1..], t[k + 1..]);
  }

  lemma FieldsSpelled(fields: seq<Member>, t: Bytes, k: nat)
    requires |fields| > 1 && k < |t| && t[k] == 44
    requires FieldText(fields[0], t[..k]) && FieldsText(fields[1..], t[k + 1..])
    ensures FieldsText(fields, t)
  {
  }

  lemma OneField(m: Member, t: Bytes)
    ensures FieldsText([m], t) <==> FieldText(m, t)
  {
  }

  lemma FieldsAhead(fields: seq<Member>, w: Bytes, t: Bytes)
    requires White(w) && fields != [] && FieldsText(fields, t)
    ensures FieldsText(fields, w + t)
  {
    hide *;
    if |fields| == 1 {
      assert fields == [fields[0]];
      OneField(fields[0], t);
      OneField(fields[0], w + t);
      FieldAhead(fields[0], w, t);
    } else {
      var k := FieldsParts(fields, t);
      FieldAhead(fields[0], w, t[..k]);
      Shifted(w, t, 0, k);
      Shifted(w, t, k, k + 1);
      FieldsSpelled(fields, w + t, |w| + k);
    }
  }

  // ---------- the parser, step by step ----------

  /** The offset at which the text behind white space begins. */
  lemma AfterWhite(s: Bytes, at: nat) returns (n: nat)
    requires at <= |s|
    ensures at <= n <= |s| && SkipSpace(s[at..]) == s[n..] && White(s[at..n])
  {
    var m := Skipped(s[at..]);
    n := at + m;
    hide *;
    assert s[at..][m..] == s[n..] && s[at..][..m] == s[at..n];
  }

  lemma ItemsOpened(s: Bytes, items: seq<Json>, rest: Bytes)
    requires ParseItems(s) == Parsed(items, rest)
    ensures items != [] && ParseValue(s).Parsed? && ParseValue(s).value == items[0]
    ensures var t := SkipSpace(ParseValue(s).rest);
      && t != []
      && (if |items| == 1 then t[0] == 93 && rest == t[1..]
          else t[0] == 44 && ParseItems(SkipSpace(t[1..])) == Parsed(items[1..], rest))
  {
    hide ParseValue, SkipSpace;
  }

  lemma FieldsOpened(s: Bytes, fields: seq<Member>, rest: Bytes)
    requires ParseFields(s) == Parsed(fields, rest)
    ensures fields != [] && ParseName(s).Parsed? && ParseName(s).value == fields[0].name
    ensures var c := SkipSpace(ParseName(s).rest);
      && c != [] && c[0] == 58
      && ParseValue(SkipSpace(c[1..])).Parsed? && ParseValue(SkipSpace(c[1..])).value == fields[0].value
      && var t := SkipSpace(ParseValue(SkipSpace(c[1..])).rest);
         && t != []
         && (if |fields| == 1 then t[0] == 125 && rest == t[1..]
             else t[0] == 44 && ParseFields(SkipSpace(t[1..])) == Parsed(fields[1..], rest))
  {
    hide ParseName, ParseValue, SkipSpace;
  }

  lemma ArrayOpened(s: Bytes, v: Json, rest: Bytes)
    requires s != [] && s[0] == 91 && ParseValue(s) == Parsed(v, rest)
    ensures v.Arr?
    ensures var t := SkipSpace(s[1..]);
      if v.items == [] then t != [] && t[0] == 93 && rest == t[1..] else ParseItems(t) == Parsed(v.items, rest)
  {
    ItemsNotEmpty(SkipSpace(s[1..]));
    hide ParseItems, ParseFields, ParseName, ParseNumber, ParseLiteral, SkipSpace;
  }

  lemma ObjectOpened(s: Bytes, v: Json, rest: Bytes)
    requires s != [] && s[0] == 123 && ParseValue(s) == Parsed(v, rest)
    ensures v.Obj? && NoNameTwice(v.fields)
    ensures var t := SkipSpace(s[1..]);
      if v.fields == [] then t != [] && t[0] == 125 && rest == t[1..] else ParseFields(t) == Parsed(v.fields, rest)
  {
    FieldsNotEmpty(SkipSpace(s[1..]));
    hide ParseItems, ParseFields, ParseName, ParseNumber, ParseLiteral, SkipSpace;
  }

  lemma ItemsNotEmpty(t: Bytes)
    ensures ParseItems(t).Parsed? ==> ParseItems(t).value != []
  {
    hide ParseValue, SkipSpace;
  }

  lemma FieldsNotEmpty(t: Bytes)
    ensures ParseFields(t).Parsed? ==> ParseFields(t).value != []
  {
    hide ParseValue, ParseName, SkipSpace;
  }

  lemma LiteralSpelled(s: Bytes, v: Json, rest: Bytes) returns (n: nat)
    requires ParseLiteral(s) == Parsed(v, rest)
    ensures 0 < n <= |s| && rest == s[n..] && ValueText(v, s[..n])
  {
    n := if v == Bool(false) then 5 else 4;
  }

  lemma ScalarOpened(s: Bytes, v: Json, rest: Bytes)
    requires ParseValue(s) == Parsed(v, rest) && (s == [] || (s[0] != 91 && s[0] != 123))
    ensures s != []
    ensures if s[0] == QUOTE then v.Str? && ParseName(s) == Parsed(v.name, rest)
      else if s[0] == MINUS || IsDigit(s[0]) then ParseNumber(s) == Parsed(v, rest)
      else ParseLiteral(s) == Parsed(v, rest)
  {
    hide ParseItems, ParseFields, ParseName, ParseNumber, ParseLiteral, SkipSpace;
  }

  // ---------- and put together ----------

  lemma {:induction false} ValueSpelled(s: Bytes, v: Json, rest: Bytes) returns (n: nat)
    requires ParseValue(s) == Parsed(v, rest)
    ensures 0 < n <= |s| && rest == s[n..] && ValueText(v, s[..n])
    decreases |s|, 1
  {
    hide *;
    if s != [] && s[0] == 91 {
      ArrayOpened(s, v, rest);
      var p := AfterWhite(s, 1);
      if v.items == [] {
        n := p + 1;
        Closed(s, p, rest);
        EmptySpelled(s, p, v);
      } else {
        var m := ItemsFound(s[p..], v.items, rest);
        n := p + m;
        Inside(s, p, m);
        ItemsAhead(v.items, s[1..p], s[p..n - 1]);
        ArraySpelled(s, p, n, v);
      }
    } else if s != [] && s[0] == 123 {
      ObjectOpened(s, v, rest);
      var p := AfterWhite(s, 1);
      if v.fields == [] {
        n := p + 1;
        Closed(s, p, rest);
        EmptySpelled(s, p, v);
      } else {
        var m := FieldsFound(s[p..], v.fields, rest);
        n := p + m;
        Inside(s, p, m);
        FieldsAhead(v.fields, s[1..p], s[p..n - 1]);
        ObjectSpelled(s, p, n, v);
      }
    } else {
      n := ScalarSpelled(s, v, rest);
    }
  }

  lemma ScalarSpelled(s: Bytes, v: Json, rest: Bytes) returns (n: nat)
    requires ParseValue(s) == Parsed(v, rest) && (s == [] || (s[0] != 91 && s[0] != 123))
    ensures 0 < n <= |s| && rest == s[n..] && ValueText(v, s[..n])
  {
    hide ParseValue, ParseName, ParseNumber, ParseLiteral, NameText, NumberText;
    ScalarOpened(s, v, rest);
    if s[0] == QUOTE {
      n := NameSpelled(s, v.name, rest);
    } else if s[0] == MINUS || IsDigit(s[0]) {
      n := NumberSpelled(s, v, rest);
    } else {
      n := LiteralSpelled(s, v, rest);
    }
  }

  lemma Closed(s: Bytes, p: nat, rest: Bytes)
    requires p <= |s| && s[p..] != [] && rest == s[p..][1..]
    ensures p < |s| && rest == s[p + 1..] && s[p..][0] == s[p]
  {
  }

  lemma Inside(s: Bytes, p: nat, m: nat)
    requires p <= |s| && 0 < m <= |s| - p
    ensures s[p..][m..] == s[p + m..] && s[p..][..m - 1] == s[p..p + m - 1] && s[p..][m - 1] == s[p + m - 1]
  {
  }

  lemma EmptySpelled(s: Bytes, p: nat, v: Json)
    requires 1 <= p < |s| && White(s[1..p])
    requires (v == Arr([]) && s[0] == 91 && s[p] == 93) || (v == Obj([]) && s[0] == 123 && s[p] == 125)
    ensures ValueText(v, s[..p + 1])
  {
    assert s[..p + 1][1..p] == s[1..p];
  }

  lemma ArraySpelled(s: Bytes, p: nat, n: nat, v: Json)
    requires 1 <= p < n <= |s| && v.Arr? && v.items != [] && s[0] == 91 && s[n - 1] == 93
    requires ItemsText(v.items, s[1..p] + s[p..n - 1])
    ensures ValueText(v, s[..n])
  {
    assert s[..n][1..n - 1] == s[1..p] + s[p..n - 1];
    hide ItemsText;
  }

  lemma ObjectSpelled(s: Bytes, p: nat, n: nat, v: Json)
    requires 1 <= p < n <= |s| && v.Obj? && v.fields != [] && s[0] == 123 && s[n - 1] == 125
    requires NoNameTwice(v.fields) && FieldsText(v.fields, s[1..p] + s[p..n - 1])
    ensures ValueText(v, s[..n])
  {
    assert s[..n][1..n - 1] == s[1..p] + s[p..n - 1];
    hide FieldsText, NoNameTwice;
  }

  lemma {:induction false} ItemsFound(s: Bytes, items: seq<Json>, rest: Bytes) returns (n: nat)
    requires ParseItems(s) == Parsed(items, rest)
    ensures items != [] && 0 < n <= |s| && rest == s[n..] && s[n - 1] == 93 && ItemsText(items, s[..n - 1])
    decreases |s|, 2
  {
    hide *;
    ItemsOpened(s, items, rest);
    var m := ValueSpelled(s, items[0], ParseValue(s).rest);
    var p := AfterWhite(s, m);
    Closed(s, p, s[p..][1..]);
    HeadPadded(items[0], s, m, p);
    if |items| == 1 {
      n := p + 1;
      assert items == [items[0]];
      OneItem(items[0], s[..p]);
    } else {
      var q := AfterWhite(s, p + 1);
      var k := ItemsFound(s[q..], items[1..], rest);
      n := q + k;
      Inside(s, q, k);
      ItemsAhead(items[1..], s[p + 1..q], s[q..n - 1]);
      Cut(s, p, q, n - 1);
      ItemsSpelled(items, s[..n - 1], p);
    }
  }

  lemma HeadPadded(v: Json, s: Bytes, m: nat, p: nat)
    requires m <= p <= |s| && ValueText(v, s[..m]) && White(s[m..p])
    ensures Padded(v, s[..p])
  {
    assert s[..p][..0] == [] && s[..p][0..m] == s[..m] && s[..p][m..] == s[m..p];
    hide ValueText;
    PaddedSpelled(v, s[..p], 0, m);
  }

  lemma Cut(s: Bytes, p: nat, q: nat, n: nat)
    requires p < q <= n <= |s|
    ensures s[..n][..p] == s[..p] && s[..n][p] == s[p] && s[..n][p + 1..] == s[p + 1..q] + s[q..n]
  {
  }

  lemma {:induction false} FieldsFound(s: Bytes, fields: seq<Member>, rest: Bytes) returns (n: nat)
    requires ParseFields(s) == Parsed(fields, rest)
    ensures fields != [] && 0 < n <= |s| && rest == s[n..] && s[n - 1] == 125 && FieldsText(fields, s[..n - 1])
    decreases |s|, 2
  {
    hide *;
    FieldsOpened(s, fields, rest);
    var i := NameSpelled(s, fields[0].name, ParseName(s).rest);
    var k := AfterWhite(s, i);
    Closed(s, k, s[k..][1..]);
    var y := AfterWhite(s, k + 1);
    var l := ValueSpelled(s[y..], fields[0].value, ParseValue(s[y..]).rest);
    Within(s, y, l);
    var p := AfterWhite(s, y + l);
    Closed(s, p, s[p..][1..]);
    HeadField(fields[0], s, i, k, y, y + l, p);
    if |fields| == 1 {
      n := p + 1;
      assert fields == [fields[0]];
      OneField(fields[0], s[..p]);
    } else {
      var q := AfterWhite(s, p + 1);
      var m := FieldsFound(s[q..], fields[1..], rest);
      n := q + m;
      Inside(s, q, m);
      FieldsAhead(fields[1..], s[p + 1..q], s[q..n - 1]);
      Cut(s, p, q, n - 1);
      FieldsSpelled(fields, s[..n - 1], p);
    }
  }

  lemma Within(s: Bytes, y: nat, l: nat)
    requires y <= |s| && l <= |s| - y
    ensures s[y..][l..] == s[y + l..] && s[y..][..l] == s[y..y + l]
  {
  }

  lemma SliceIn(s: Bytes, p: nat, a: nat, b: nat, c: nat)
    requires a <= p <= |s| && b <= c <= p - a
    ensures s[..p][a..][b..c] == s[a + b..a + c] && s[..p][a..][..b] == s[a..a + b] && s[..p][a..][c..] == s[a + c..p]
  {
    var t := s[..p][a..];
    assert t == s[a..p];
    assert forall i :: 0 <= i < |t| ==> t[i] == s[a + i];
    assert t[b..c] == s[a + b..a + c];
    assert t[..b] == s[a..a + b];
    assert t[c..] == s[a + c..p];
  }

  lemma HeadField(m: Member, s: Bytes, i: nat, k: nat, y: nat, z: nat, p: nat)
    requires i <= k < y <= z <= p <= |s| && s[k] == 58
    requires NameText(m.name, s[..i]) && White(s[i..k])
    requires White(s[k + 1..y]) && ValueText(m.value, s[y..z]) && White(s[z..p])
    ensures FieldText(m, s[..p])
  {
    hide *;
    var t := s[..p];
    SliceIn(s, p, k + 1, y - k - 1, z - k - 1);
    PaddedSpelled(m.value, t[k + 1..], y - k - 1, z - k - 1);
    assert t[..0] == [] && t[0..i] == s[..i] && t[i..k] == s[i..k] && t[k] == s[k];
    NoWhite();
    FieldSpelled(m, t, 0, i, k);
  }

  lemma NoWhite()
    ensures White([])
  {
  }

  /** The parser reads a text as a value exactly when the text spells it, white space around it allowed. */
  lemma LoadsMeans(text: Bytes, v: Json)
    ensures Loads(text) == Some(v) <==> Padded(v, text)
  {
    hide *;
    if Loads(text) == Some(v) {
      var rest := LoadsOpened(text, v);
      var p := AfterWhite(text, 0);
      WholeSlice(text);
      var n := ValueSpelled(text[p..], v, rest);
      var q := AfterWhite(text, p + n);
      Within(text, p, n);
      WholeSlice(text[q..]);
      PaddedSpelled(v, text, p, p + n);
    }
    if Padded(v, text) {
      var i, j := PaddedParts(v, text);
      LoadsPadded(v, text, i, j);
    }
  }

  lemma WholeSlice(s: Bytes)
    ensures s[0..] == s && s[..|s|] == s && (s == [] <==> |s| == 0)
  {
  }

  lemma LoadsOpened(text: Bytes, v: Json) returns (rest: Bytes)
    requires Loads(text) == Some(v)
    ensures ParseValue(SkipSpace(text)) == Parsed(v, rest) && SkipSpace(rest) == []
  {
    hide ParseValue, SkipSpace;
    rest := ParseValue(SkipSpace(text)).rest;
  }

  lemma LoadsPadded(v: Json, t: Bytes, i: nat, j: nat)
    requires i <= j <= |t| && White(t[..i]) && ValueText(v, t[i..j]) && White(t[j..])
    ensures Loads(t) == Some(v)
  {
    var x, w := t[i..j], t[j..];
    assert t == t[..i] + (x + w) && w + [] == w;
    ValueHead(v, x);
    assert (x + w)[0] == x[0];
    assert Delimited(w);
    ValueRead(v, x, w);
    hide ParseValue, ValueText;
    SkipWhite(t[..i], x + w);
    NoSkip(x + w);
    SkipWhite(w, []);
  }
}
