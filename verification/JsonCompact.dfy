/** Of all texts of a value the printer writes a shortest one. */
module JsonCompact {
  import opened Basics
  import opened ByteStrings
  import opened Json
  import opened JsonGrammar

  /** No name in the value holds a DELETE character, which the printer escapes although it need not. */
  ghost predicate NoDelete(v: Json) {
    match v
    case Null => true
    case Bool(_) => true
    case Int(_) => true
    case Real(_) => true
    case Str(name) => 127 !in name
    case Arr(items) => forall i :: 0 <= i < |items| ==> NoDelete(items[i])
    case Obj(fields) => forall i :: 0 <= i < |fields| ==> 127 !in fields[i].name && NoDelete(fields[i].value)
  }

  /** A printed unit is legal, visible ASCII, and its hexadecimal digits are in lower case. */
  lemma UnitPrinted(u: CodeUnit)
    ensures UnitText(u, PrintUnit(u)) && |PrintUnit(127)| == 6
    ensures forall i :: 0 <= i < |PrintUnit(u)| ==> 32 <= PrintUnit(u)[i] < 127
    ensures |PrintUnit(u)| == 6 ==> forall i :: 2 <= i < 6 ==> !(65 <= PrintUnit(u)[i] <= 70)
  {
    var a, b, c, d := u / 4096, u / 256 % 16, u / 16 % 16, u % 16;
    HexPrinted(a);
    HexPrinted(b);
    HexPrinted(c);
    HexPrinted(d);
    SixteenFold(u);
    hide Hex, HexDigit;
    var t := PrintUnit(u);
    if |t| == 6 {
      assert t[2..] == [HexDigit(a), HexDigit(b), HexDigit(c), HexDigit(d)];
      var x := t[2..];
      assert Hex(x[0], a) && Hex(x[1], b) && Hex(x[2], c) && Hex(x[3], d);
    }
  }

  lemma HexPrinted(d: nat)
    requires d < 16
    ensures Hex(HexDigit(d), d) && 32 <= HexDigit(d) < 127 && !(65 <= HexDigit(d) <= 70)
  {
  }

  lemma SixteenFold(u: CodeUnit)
    ensures u / 4096 < 16 && u == 4096 * (u / 4096) + 256 * (u / 256 % 16) + 16 * (u / 16 % 16) + u % 16
  {
  }

  lemma UnitShortest(u: CodeUnit, t: Bytes)
    requires UnitText(u, t) && u != 127
    ensures |PrintUnit(u)| <= |t|
  {
  }

  lemma {:induction false} UnitsShortest(name: Name, t: Bytes)
    requires UnitsText(name, t) && 127 !in name
    ensures |PrintUnits(name)| <= |t|
  {
    if name != [] {
      var k :| 0 <= k <= |t| && UnitText(name[0], t[..k]) && UnitsText(name[1..], t[k..]);
      UnitShortest(name[0], t[..k]);
      UnitsShortest(name[1..], t[k..]);
    }
  }

  lemma {:induction false} DigitsShortest(a: Bytes)
    requires Digits(a)
    ensures |PrintNat(DigitsValue(a))| <= |a|
  {
    var n := |a| - 1;
    if n > 0 {
      DigitsShortest(a[..n]);
      assert DigitsValue(a) / 10 == DigitsValue(a[..n]);
    } else {
      assert DigitsValue(a[..n]) == 0;
    }
  }

  lemma NumberShortest(v: Json, t: Bytes)
    requires (v.Int? || v.Real?) && NumberText(v, t)
    ensures |Print(v)| <= |t|
  {
    var sign, a, f, e :| NumberPieces(v, sign, a, f, e) && t == sign + a + f + e;
    if v.Int? { DigitsShortest(a); }
  }

  /** No text of a value is shorter than the printed one. */
  lemma {:induction false} PrintShortest(v: Json, t: Bytes)
    requires ValueText(v, t) && NoDelete(v)
    ensures |Print(v)| <= |t|
    decreases |t|, 0
  {
    match v
    case Null =>
    case Bool(_) =>
    case Int(_) => NumberShortest(v, t);
    case Real(_) => NumberShortest(v, t);
    case Str(name) => UnitsShortest(name, t[1..|t| - 1]);
    case Arr(items) => if items != [] { ItemsShortest(items, t[1..|t| - 1]); }
    case Obj(fields) => if fields != [] { FieldsShortest(fields, t[1..|t| - 1]); }
  }

  lemma {:induction false} PaddedShortest(v: Json, t: Bytes)
    requires Padded(v, t) && NoDelete(v)
    ensures |Print(v)| <= |t|
    decreases |t|, 1
  {
    hide ValueText, NoDelete, Print;
    var i, j :| 0 <= i <= j <= |t| && White(t[..i]) && ValueText(v, t[i..j]) && White(t[j..]);
    PrintShortest(v, t[i..j]);
  }

  lemma {:induction false} ItemsShortest(items: seq<Json>, t: Bytes)
    requires items != [] && ItemsText(items, t) && forall i :: 0 <= i < |items| ==> NoDelete(items[i])
    ensures |PrintItems(items)| <= |t| + 1
    decreases |t|, 2
  {
    hide Padded, NoDelete, Print;
    if |items| == 1 {
      PaddedShortest(items[0], t);
    } else {
      var k :| 0 <= k < |t| && t[k] == 44 && Padded(items[0], t[..k]) && ItemsText(items[1..], t[k + 1..]);
      PaddedShortest(items[0], t[..k]);
      ItemsShortest(items[1..], t[k + 1..]);
    }
  }

  lemma {:induction false} FieldShortest(m: Member, t: Bytes)
    requires FieldText(m, t) && 127 !in m.name && NoDelete(m.value)
    ensures |PrintName(m.name)| + 1 + |Print(m.value)| <= |t|
    decreases |t|, 2
  {
    hide Padded, NoDelete, Print, White;
    var h, i, k :| 0 <= h <= i <= k < |t| && t[k] == 58
      && White(t[..h]) && NameText(m.name, t[h..i]) && White(t[i..k]) && Padded(m.value, t[k + 1..]);
    UnitsShortest(m.name, t[h..i][1..i - h - 1]);
    PaddedShortest(m.value, t[k + 1..]);
  }

  lemma {:induction false} FieldsShortest(fields: seq<Member>, t: Bytes)
    requires fields != [] && FieldsText(fields, t)
    requires forall i :: 0 <= i < |fields| ==> 127 !in fields[i].name && NoDelete(fields[i].value)
    ensures |PrintFields(fields)| <= |t| + 1
    decreases |t|, 3
  {
    hide FieldText, NoDelete, Print, PrintName;
    if |fields| == 1 {
      FieldShortest(fields[0], t);
    } else {
      var k :| 0 <= k < |t| && t[k] == 44 && FieldText(fields[0], t[..k]) && FieldsText(fields[1..], t[k + 1..]);
      FieldShortest(fields[0], t[..k]);
      FieldsShortest(fields[1..], t[k + 1..]);
    }
  }

  /** No text that loads as a value is shorter than the printed one. */
  lemma NoShorterText(text: Bytes, v: Json)
    requires Loads(text) == Some(v) && NoDelete(v)
    ensures |Print(v)| <= |text|
  {
    LoadsMeans(text, v);
    PaddedShortest(v, text);
  }
}
