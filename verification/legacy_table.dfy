/** The table behaviour of the legacy page script (static/js/main.js): the colour class
    `autoColorize` gives a cell, the sort key `parseValue` reads from a cell, and
    `sortTable` with its direction toggle and header marks. Cell texts are given already
    read out of the document. */
module LegacyTable {
  import opened Common
  import opened Text
  import opened NumParse
  import opened Sorting

  /** The colour a cell ends with: the `positive` class, the `negative` class, or neither. */
  datatype Tone = Neutral | Positive | Negative

  /** Cell texts `autoColorize` leaves uncoloured outright. */
  const Blank: set<string> := {"", "-", "N/A", "---"}

  /** The characters `/[%,亿万手]/g` deletes before a percentage is read. */
  const PercentNoise: set<char> := {'%', ',', '亿', '万', '手'}

  /** The number a percentage cell shows. */
  function PercentValue(text: string): Num {
    ParseFloat(RemoveChars(text, PercentNoise))
  }

  /** The colour `autoColorize` gives a cell whose trimmed text is `text`. */
  function CellTone(text: string): (t: Tone)
    ensures text in Blank ==> t == Neutral
    ensures text == "利好" ==> t == Positive
    ensures text == "利空" ==> t == Negative
    ensures text !in Blank && text != "利好" && text != "利空" && '%' !in text ==>
      (t == Positive <==> StartsWith(text, "+")) && (t == Negative <==> StartsWith(text, "-"))
    ensures text !in Blank && '%' in text && PercentValue(text).NaN? ==> t == Neutral
    ensures text !in Blank && '%' in text && Less(PercentValue(text), Finite(0.0)) ==> t == Negative
    ensures text !in Blank && '%' in text && !PercentValue(text).NaN? && StartsWith(text, "-") ==> t == Negative
    ensures (text !in Blank && '%' in text && !PercentValue(text).NaN?
             && !Less(PercentValue(text), Finite(0.0)) && !StartsWith(text, "-")) ==>
      (t == Positive <==> Greater(PercentValue(text), Finite(0.0)) || StartsWith(text, "+"))
      && (t == Neutral <==> !Greater(PercentValue(text), Finite(0.0)) && !StartsWith(text, "+"))
  {
    if text in Blank then Neutral
    else if text == "利好" then Positive
    else if text == "利空" then Negative
    else if '%' in text then
      var v := PercentValue(text);
      if v.NaN? then Neutral
      else if Less(v, Finite(0.0)) || StartsWith(text, "-") then Negative
      else if Greater(v, Finite(0.0)) || StartsWith(text, "+") then Positive
      else Neutral
    else if StartsWith(text, "+") then Positive
    else if StartsWith(text, "-") then Negative
    else Neutral
  }

  const PositiveClass := "positive"
  const NegativeClass := "negative"

  /** `autoColorize` on one cell: both colour classes are removed first, then the cell's
      own colour, if any, is added. */
  function Colorize(classes: set<string>, raw: string): (r: set<string>)
    ensures !(PositiveClass in r && NegativeClass in r)
    ensures forall c :: c != PositiveClass && c != NegativeClass ==> (c in r <==> c in classes)
    ensures PositiveClass in r <==> CellTone(Trim(raw, JsSpaces)) == Positive
    ensures NegativeClass in r <==> CellTone(Trim(raw, JsSpaces)) == Negative
  {
    var cleared := classes - {PositiveClass, NegativeClass};
    match CellTone(Trim(raw, JsSpaces))
    case Neutral => cleared
    case Positive => cleared + {PositiveClass}
    case Negative => cleared + {NegativeClass}
  }

  /** Colouring twice gives what colouring once gives. */
  lemma ColorizeIdempotent(classes: set<string>, raw: string)
    ensures Colorize(Colorize(classes, raw), raw) == Colorize(classes, raw)
  {
  }

  lemma DigitsHaveNoNoise(n: nat, drop: set<char>)
    requires forall c :: c in drop ==> !IsDigit(c)
    ensures RemoveChars(NatToString(n), drop) == NatToString(n)
  {
    RemoveCharsNone(NatToString(n), drop);
  }

  lemma CleanPercent(n: nat)
    ensures RemoveChars(NatToString(n) + "%", PercentNoise) == NatToString(n)
    ensures RemoveChars("-" + NatToString(n) + "%", PercentNoise) == "-" + NatToString(n)
  {
    var d := NatToString(n);
    DigitsHaveNoNoise(n, PercentNoise);
    RemoveCharsAppend(d, "%", PercentNoise);
    assert RemoveChars("%", PercentNoise) == "";
    assert d + "" == d;
    RemoveCharsAppend("-" + d, "%", PercentNoise);
    RemoveCharsAppend("-", d, PercentNoise);
    assert RemoveChars("-", PercentNoise) == "-";
    assert "-" + d + "" == "-" + d;
  }

  /** Text ending in `%` is none of the special cell texts. */
  lemma PercentNotSpecial(t: string)
    requires |t| > 0 && t[|t| - 1] == '%'
    ensures t !in Blank && t != "利好" && t != "利空" && t !in Missing
  {
  }

  lemma Unsigned(t: string)
    requires |t| > 0 && IsDigit(t[0])
    ensures !StartsWith(t, "-") && !StartsWith(t, "+")
  {
    assert t[..1][0] == t[0];
  }

  /** A percentage reads as its number: `n%` is positive unless it is zero. */
  lemma PercentTone(n: nat)
    ensures CellTone(NatToString(n) + "%") == (if n > 0 then Positive else Neutral)
  {
    var d := NatToString(n);
    var p := d + "%";
    CleanPercent(n);
    ParseFloatNat(n);
    assert PercentValue(p) == Finite(n as real);
    assert '%' in p by { assert p[|d|] == '%'; }
    assert p[0] == d[0];
    Unsigned(p);
    PercentNotSpecial(p);
  }

  /** `-n%` is negative even when `n` is zero. */
  lemma NegativePercentTone(n: nat)
    ensures CellTone("-" + NatToString(n) + "%") == Negative
  {
    var d := NatToString(n);
    var m := "-" + d + "%";
    CleanPercent(n);
    ParseFloatNegNat(n);
    assert PercentValue(m) == Finite(-(n as real));
    assert '%' in m by { assert m[|m| - 1] == '%'; }
    assert StartsWith(m, "-") by { assert m[..1] == "-"; }
    PercentNotSpecial(m);
  }

  /** The sort key `parseValue` reads: a number, or the lower-cased text. */
  datatype Key = KNum(n: Num) | KText(t: string)

  /** Cell texts that sort as -Infinity. */
  const Missing: set<string> := {"N/A", "--", "---", ""}

  /** The unit characters `/[%亿万元\/克手]/g` deletes, then the money signs `/[¥,]/g` deletes. */
  const UnitNoise: set<char> := {'%', '亿', '万', '元', '/', '克', '手'}
  const MoneyNoise: set<char> := {'¥', ','}

  function Cleaned(val: string): string {
    RemoveChars(RemoveChars(val, UnitNoise), MoneyNoise)
  }

  /** `parseValue(val)`. */
  function ParseValue(val: string): (k: Key)
    ensures val in Missing ==> k == KNum(Inf(false))
    ensures val !in Missing && ParseFloat(Cleaned(val)).NaN? ==> k == KText(Lower(val))
    ensures val !in Missing && !ParseFloat(Cleaned(val)).NaN? ==> k == KNum(ParseFloat(Cleaned(val)))
    ensures k.KNum? ==> !k.n.NaN?
  {
    if val in Missing then KNum(Inf(false))
    else
      var n := ParseFloat(Cleaned(val));
      if n.NaN? then KText(Lower(val)) else KNum(n)
  }

  lemma CleanAmount(n: nat)
    ensures Cleaned("¥" + NatToString(n) + "元") == NatToString(n)
    ensures Cleaned(NatToString(n) + "%") == NatToString(n)
  {
    var d := NatToString(n);
    DigitsHaveNoNoise(n, UnitNoise);
    DigitsHaveNoNoise(n, MoneyNoise);
    CleanYuan(d);
    CleanPercentSign(d);
  }

  lemma CleanYuan(d: string)
    requires RemoveChars(d, UnitNoise) == d && RemoveChars(d, MoneyNoise) == d
    ensures Cleaned("¥" + d + "元") == d
  {
    RemoveCharsAppend("¥" + d, "元", UnitNoise);
    RemoveCharsAppend("¥", d, UnitNoise);
    assert RemoveChars("¥", UnitNoise) == "¥";
    assert RemoveChars("元", UnitNoise) == "";
    assert "¥" + d + "" == "¥" + d;
    RemoveCharsAppend("¥", d, MoneyNoise);
    assert RemoveChars("¥", MoneyNoise) == "";
    assert "" + d == d;
  }

  lemma CleanPercentSign(d: string)
    requires RemoveChars(d, UnitNoise) == d && RemoveChars(d, MoneyNoise) == d
    ensures Cleaned(d + "%") == d
  {
    RemoveCharsAppend(d, "%", UnitNoise);
    assert RemoveChars("%", UnitNoise) == "";
    assert d + "" == d;
  }

  lemma NotMissing(t: string)
    requires |t| > 0 && t[0] == '¥'
    ensures t !in Missing
  {
  }

  /** Amounts with a currency sign and a unit sort by their number. */
  lemma ParseValueOfAmount(n: nat)
    ensures ParseValue("¥" + NatToString(n) + "元") == KNum(Finite(n as real))
    ensures ParseValue(NatToString(n) + "%") == KNum(Finite(n as real))
  {
    var d := NatToString(n);
    CleanAmount(n);
    ParseFloatNat(n);
    var a := "¥" + d + "元";
    assert a[0] == '¥';
    NotMissing(a);
    PercentNotSpecial(d + "%");
  }

  /** `valA < valB` between two keys. A number and a text never compare: the text converts
      to NaN, and every comparison with NaN is false. Texts compare by character code. */
  predicate KeyLess(a: Key, b: Key) {
    match (a, b)
    case (KNum(x), KNum(y)) => Less(x, y)
    case (KText(x), KText(y)) => LexLt(x, y)
    case _ => false
  }

  /** Cells read as -Infinity sort below every other number. */
  lemma MissingSortsFirst(val: string, other: string)
    requires val in Missing && ParseValue(other).KNum? && ParseValue(other) != KNum(Inf(false))
    ensures KeyLess(ParseValue(val), ParseValue(other))
  {
  }

  datatype Dir = Asc | Desc

  /** The `data-sort-col` and `data-sort-dir` of a table; `None` when not set. */
  datatype SortState = SortState(col: Option<nat>, dir: Option<Dir>)

  /** The direction of a sort by `col`: the other direction when the table is already sorted
      by that column, ascending otherwise. */
  function NextDir(st: SortState, col: nat): (d: Dir)
    ensures st.col != Some(col) ==> d == Asc
    ensures st.col == Some(col) ==> d != st.dir.GetOr(Asc)
  {
    if st.col == Some(col) then (if st.dir.GetOr(Asc) == Asc then Desc else Asc) else Asc
  }

  /** Sorting the same column twice in a row comes back to the first direction. */
  lemma DirectionAlternates(st: SortState, col: nat)
    ensures var d := NextDir(st, col);
      NextDir(SortState(Some(col), Some(d)), col) != d
      && NextDir(SortState(Some(col), Some(NextDir(SortState(Some(col), Some(d)), col))), col) == d
  {
  }

  /** A table row: the text of each of its cells. */
  type Row = seq<string>

  function RowKey(row: Row, col: nat): Key {
    if col < |row| then ParseValue(Trim(row[col], JsSpaces)) else KText("")
  }

  /** "`a` sorts before `b`": the comparator's result is negative. */
  predicate RowBefore(col: nat, dir: Dir, a: Row, b: Row) {
    if dir == Asc then KeyLess(RowKey(a, col), RowKey(b, col)) else KeyLess(RowKey(b, col), RowKey(a, col))
  }

  function RowOrder(col: nat, dir: Dir): (Row, Row) -> bool {
    (a: Row, b: Row) => RowBefore(col, dir, a, b)
  }

  lemma KeyLessStrict(a: Key, b: Key, c: Key)
    ensures !KeyLess(a, a)
    ensures KeyLess(a, b) && KeyLess(b, c) ==> KeyLess(a, c)
  {
    if a.KText? {
      LexLtIrreflexive(a.t);
    }
    if KeyLess(a, b) && KeyLess(b, c) {
      if a.KNum? {
        LessTransitive(a.n, b.n, c.n);
      } else {
        LexLtTransitive(a.t, b.t, c.t);
      }
    }
  }

  /** Numbers and texts never compare with each other, so the comparator is a strict
      partial order in either direction. */
  lemma RowOrderStrict(col: nat, dir: Dir)
    ensures StrictOrder(RowOrder(col, dir))
  {
    var lt := RowOrder(col, dir);
    forall a: Row
      ensures !lt(a, a)
    {
      KeyLessStrict(RowKey(a, col), RowKey(a, col), RowKey(a, col));
    }
    forall a: Row, b: Row, c: Row | lt(a, b) && lt(b, c)
      ensures lt(a, c)
    {
      if dir == Asc {
        KeyLessStrict(RowKey(a, col), RowKey(b, col), RowKey(c, col));
      } else {
        KeyLessStrict(RowKey(c, col), RowKey(b, col), RowKey(a, col));
      }
    }
  }

  /** The header classes `sortTable` controls. */
  datatype Mark = Unmarked | SortedAsc | SortedDesc

  /** The state after `sortTable`: the table's sort attributes, its rows in document order,
      the header marks, and whether a comparison threw (a row without the column's cell). */
  datatype TableSort = TableSort(state: SortState, rows: seq<Row>, marks: seq<Mark>, threw: bool)

  /** Some row lacks the sorted column, so reading its cell throws once two rows are compared. */
  predicate ThrowsOn(rows: seq<Row>, col: nat) {
    |rows| >= 2 && exists i :: 0 <= i < |rows| && |rows[i]| <= col
  }

  /** Every row's key in column `col` is a number, or every row's key is a text. Only then
      is the comparator consistent: a number and a text compare as equal, which is not
      transitive, and on such a column the order `Array.prototype.sort` produces is left to
      the engine. */
  predicate Homogeneous(rows: seq<Row>, col: nat) {
    (forall i :: 0 <= i < |rows| ==> RowKey(rows[i], col).KNum?)
    || (forall i :: 0 <= i < |rows| ==> RowKey(rows[i], col).KText?)
  }

  /** `sortTable(table, col)`: the sort attributes are updated first; the rows are then
      sorted stably and appended back, and exactly the sorted column's header is marked. */
  function SortTable(st: SortState, rows: seq<Row>, marks: seq<Mark>, col: nat): (r: TableSort)
    ensures r.state == SortState(Some(col), Some(NextDir(st, col)))
    ensures r.threw <==> ThrowsOn(rows, col)
    ensures r.threw ==> r.rows == rows && r.marks == marks
    ensures !r.threw ==> multiset(r.rows) == multiset(rows)
    ensures !r.threw && Homogeneous(rows, col) ==> Sorted(r.rows, RowOrder(col, NextDir(st, col)))
    ensures !r.threw ==> (
      |r.marks| == |marks|
      && forall i :: 0 <= i < |marks| ==>
        r.marks[i] == (if i != col then Unmarked else if NextDir(st, col) == Asc then SortedAsc else SortedDesc))
  {
    var dir := NextDir(st, col);
    var state := SortState(Some(col), Some(dir));
    if ThrowsOn(rows, col) then TableSort(state, rows, marks, true)
    else
      RowOrderStrict(col, dir);
      SortBySorted(rows, RowOrder(col, dir));
      var mark := if dir == Asc then SortedAsc else SortedDesc;
      TableSort(state, SortBy(rows, RowOrder(col, dir)),
        seq(|marks|, i requires 0 <= i < |marks| => if i == col then mark else Unmarked), false)
  }

  /** After a sort of a column the table has, exactly one header carries a mark. */
  lemma ExactlyOneHeaderMarked(st: SortState, rows: seq<Row>, marks: seq<Mark>, col: nat)
    requires col < |marks| && !ThrowsOn(rows, col)
    ensures var r := SortTable(st, rows, marks, col);
      r.marks[col] != Unmarked && forall i :: 0 <= i < |r.marks| && i != col ==> r.marks[i] == Unmarked
  {
  }
}
