/** `TextTable`: a grid of strings kept as a list of columns, each a map from
    row index to cell, with a renderer that pads every cell to the widest cell
    of its column. A static table refuses to write outside its columns; a
    dynamic one grows. */
module TextTable {
  import opened JavaLang
  import ArrayUtil

  /** A column: the cells it holds, by row index. */
  type Column = map<int, string>

  /** `col.getOrDefault(row, "")`. */
  function Cell(m: Column, row: int): string {
    if row in m then m[row] else ""
  }

  /** `n` new, empty columns. */
  function Empties(n: nat): (r: seq<Column>)
    ensures |r| == n && forall c :: 0 <= c < n ==> r[c] == map[]
  {
    seq(n, c => map[])
  }

  // ---------------------------------------------------------------------------
  // The largest of a set, used for `widest` and `highestIndex`

  /** `m` is the largest of `s` and `floor`. */
  predicate IsMaxOf(m: int, s: set<int>, floor: int) {
    m >= floor && (forall x :: x in s ==> x <= m) && (m == floor || m in s)
  }

  /** A non-empty set has an element to pick. */
  lemma NonEmpty(s: set<int>)
    requires s != {}
    ensures exists x :: x in s
  {
    if forall x :: x !in s {
      assert false;
    }
  }

  /** The largest of `s` and `floor`. */
  ghost function MaxOf(s: set<int>, floor: int): (m: int)
    ensures IsMaxOf(m, s, floor)
    decreases s
  {
    if s == {} then floor
    else
      NonEmpty(s);
      var x :| x in s;
      var r := MaxOf(s - {x}, floor);
      assert forall y :: y in s ==> y == x || y in s - {x};
      if x > r then x else r
  }

  /** There is only one largest element. */
  lemma {:induction false} MaxOfIs(m: int, s: set<int>, floor: int)
    requires IsMaxOf(m, s, floor)
    ensures MaxOf(s, floor) == m
  {
    var r := MaxOf(s, floor);
    assert r <= m by {
      if r != floor {
        assert r in s;
      }
    }
    assert m <= r by {
      if m != floor {
        assert m in s;
      }
    }
  }

  /** Taking one more element into account. */
  lemma {:induction false} IsMaxOfAdd(m: int, s: set<int>, floor: int, x: int)
    requires IsMaxOf(m, s, floor)
    ensures IsMaxOf(if x > m then x else m, s + {x}, floor)
  {
  }

  /** The lengths of some strings. */
  ghost function Lengths(vs: set<string>): set<int> {
    set v | v in vs :: |v|
  }

  /** `widest(col)`: the length of the longest cell, 0 for an empty column. */
  ghost function Width(m: Column): int {
    MaxOf(Lengths(m.Values), 0)
  }

  /** The row indices used in some columns. */
  ghost function Keys(d: seq<Column>): set<int> {
    set c, k | 0 <= c < |d| && k in d[c] :: k
  }

  /** `highestIndex(data)`: the largest row index used, 0 when there is none. */
  ghost function Highest(d: seq<Column>): int {
    MaxOf(Keys(d), 0)
  }

  // ---------------------------------------------------------------------------
  // Rendering

  /** A cell after the `while (bb.length() < colwidth) bb.append(filler)` loop. */
  function Padded(item: string, width: int, filler: char): (r: string)
    ensures |r| == if |item| < width then width else |item|
  {
    if |item| < width then item + seq(width - |item|, _ => filler) else item
  }

  /** Row `row`: each column's cell padded to the column's width, followed by the splitter. */
  ghost function RowText(cols: seq<Column>, row: int, filler: char, splitter: string): string
    decreases |cols|
  {
    if cols == [] then ""
    else
      var m := cols[|cols| - 1];
      RowText(cols[..|cols| - 1], row, filler, splitter) + Padded(Cell(m, row), Width(m), filler) + splitter
  }

  /** The rows from 0 to the highest index. */
  ghost function RowTexts(d: seq<Column>, filler: char, splitter: string): (r: seq<string>)
    ensures |r| == Highest(d) + 1
  {
    seq(Highest(d) + 1, row requires 0 <= row <= Highest(d) => RowText(d, row, filler, splitter))
  }

  /** The text of a table: its rows joined with '\n', none after the last. */
  ghost function Render(d: seq<Column>, filler: char, splitter: string): string {
    ArrayUtil.Joined(RowTexts(d, filler, splitter), "\n")
  }

  /** Every cell of a column is padded to exactly the column's width. */
  lemma {:induction false} PaddedToWidth(m: Column, row: int, filler: char)
    ensures |Padded(Cell(m, row), Width(m), filler)| == Width(m)
  {
    if row in m {
      assert m[row] in m.Values;
      assert |m[row]| in Lengths(m.Values);
    }
  }

  /** The width of a rendered row: each column's width plus the splitter's length. */
  ghost function RowWidth(cols: seq<Column>, splitter: nat): int
    decreases |cols|
  {
    if cols == [] then 0 else RowWidth(cols[..|cols| - 1], splitter) + Width(cols[|cols| - 1]) + splitter
  }

  /** Every row is exactly as wide as the columns and splitters together,
      whatever its cells hold, so the columns line up. */
  lemma {:induction false} RowLength(cols: seq<Column>, row: int, filler: char, splitter: string)
    ensures |RowText(cols, row, filler, splitter)| == RowWidth(cols, |splitter|)
    decreases |cols|
  {
    if cols != [] {
      var n := |cols| - 1;
      var m := cols[n];
      RowLength(cols[..n], row, filler, splitter);
      PaddedToWidth(m, row, filler);
      var p := Padded(Cell(m, row), Width(m), filler);
      assert RowText(cols, row, filler, splitter) == RowText(cols[..n], row, filler, splitter) + p + splitter;
    }
  }

  // ---------------------------------------------------------------------------
  // What the updates do to the highest row index and to the cells

  /** The larger of two row indices. */
  function Max(a: int, b: int): int {
    if a < b then b else a
  }

  /** Writing a cell raises the highest row index to the cell's row, if it is above. */
  lemma {:induction false} HighestAfterWrite(d: seq<Column>, col: int, row: int, value: string)
    requires 0 <= col < |d|
    ensures Highest(d[col := d[col][row := value]]) == Max(Highest(d), row)
  {
    var e := d[col := d[col][row := value]];
    forall k | k in Keys(e)
      ensures k in Keys(d) + {row}
    {
      var c :| 0 <= c < |e| && k in e[c];
      if k != row {
        assert k in d[c];
      }
    }
    forall k | k in Keys(d) + {row}
      ensures k in Keys(e)
    {
      if k == row {
        assert k in e[col];
      } else {
        var c :| 0 <= c < |d| && k in d[c];
        assert k in e[c];
      }
    }
    assert Keys(e) == Keys(d) + {row};
    IsMaxOfAdd(Highest(d), Keys(d), 0, row);
    MaxOfIs(Max(Highest(d), row), Keys(e), 0);
  }

  /** A table whose columns are all empty, such as a new one, has highest row index 0. */
  lemma {:induction false} HighestOfBlank(d: seq<Column>)
    requires forall c :: 0 <= c < |d| ==> d[c] == map[]
    ensures Highest(d) == 0
  {
    MaxOfIs(0, Keys(d), 0);
  }

  /** Writing a cell into the columns `set` has widened, stated against the columns before. */
  lemma {:induction false} WriteCell(pre: seq<Column>, mid: seq<Column>, col: int, row: int, value: string)
    requires 0 <= col < |mid| && 0 <= row
    requires mid == if col < |pre| then pre else pre + Empties(|mid| - |pre|)
    requires |mid| == (if col < |pre| then |pre| else col + 1)
    ensures var e := mid[col := mid[col][row := value]];
      && |e| == |mid|
      && e[col] == Cells(pre, col)[row := value]
      && (forall c :: 0 <= c < |e| && c != col ==> e[c] == Cells(pre, c))
      && Highest(e) == Max(Highest(pre), row)
      && (forall c, k :: 0 <= c < |e| && k in e[c] ==> k == row || k in mid[c])
  {
    if col >= |pre| {
      HighestAfterGrow(pre, |mid| - |pre|);
    }
    HighestAfterWrite(mid, col, row, value);
  }

  /** Empty columns added at the end leave the highest row index alone. */
  lemma {:induction false} HighestAfterGrow(d: seq<Column>, n: nat)
    ensures Highest(d + Empties(n)) == Highest(d)
  {
    var e := d + Empties(n);
    forall k | k in Keys(e)
      ensures k in Keys(d)
    {
      var c :| 0 <= c < |e| && k in e[c];
      assert c < |d|;
      assert k in d[c];
    }
    forall k | k in Keys(d)
      ensures k in Keys(e)
    {
      var c :| 0 <= c < |d| && k in d[c];
      assert k in e[c];
    }
    assert Keys(e) == Keys(d);
  }

  /** After `pruneRows(rows)` no row index reaches `rows`, so the table has at
      most `rows` rows (at least one is always rendered). */
  lemma {:induction false} HighestAfterPrune(d: seq<Column>, rows: int)
    requires rows > 0
    ensures Highest(Dropped(d, AtOrBeyond(rows))) < rows
  {
    var e := Dropped(d, AtOrBeyond(rows));
    var h := Highest(e);
    if h != 0 {
      assert h in Keys(e);
      var c :| 0 <= c < |e| && h in e[c];
      assert !AtOrBeyond(rows)(h);
    }
  }

  /** After removing or pruning rows, a removed row reads as the empty string
      and every other cell is as before. */
  lemma {:induction false} CellAfterDrop(d: seq<Column>, drop: int -> bool, c: int, row: int)
    requires 0 <= c < |d|
    ensures Cell(Dropped(d, drop)[c], row) == if drop(row) then "" else Cell(d[c], row)
  {
    var w := Without(d[c], drop);
    assert Dropped(d, drop)[c] == w;
    if row in d[c] && !drop(row) {
      assert row in w;
    }
  }

  // ---------------------------------------------------------------------------
  // The table

  class TextTable {
    var dynamic: bool
    var filler: char
    var columnsplitter: string
    var data: seq<Column>

    /** The list fits in a Java list and every row index is a non-negative `int`. */
    ghost predicate Valid()
      reads this
    {
      |data| <= INT_MAX
      && forall c, k :: 0 <= c < |data| && k in data[c] ==> 0 <= k <= INT_MAX
    }

    /** `new TextTable()`: a dynamic table without columns, filled with ' ' and split by " ". */
    constructor ()
      ensures Valid() && dynamic && filler == ' ' && columnsplitter == " " && data == []
    {
      dynamic := true;
      filler := ' ';
      columnsplitter := " ";
      data := [];
    }

    /** `new TextTable(width)`: a static table of `width` empty columns; a
        negative width throws IllegalArgumentException. */
    static method Create(width: int) returns (r: Result<TextTable>)
      requires IsInt(width)
      ensures width < 0 <==> r.Throws?
      ensures r.Throws? ==> r.exc == IllegalArgument
      ensures r.Ok? ==> (fresh(r.value) && r.value.Valid() && !r.value.dynamic
                         && r.value.filler == ' ' && r.value.columnsplitter == " " && r.value.data == Empties(width))
    {
      if width < 0 {
        return Throws(IllegalArgument);
      }
      var t := new TextTable();
      t.dynamic := false;
      var o := t.SetWidthFixed(width);
      return Ok(t);
    }

    /** `setDynamic(value)`. */
    method SetDynamic(value: bool)
      modifies this
      ensures dynamic == value
      ensures filler == old(filler) && columnsplitter == old(columnsplitter) && data == old(data)
    {
      dynamic := value;
    }

    /** `setFiller(c)`. */
    method SetFiller(c: char)
      modifies this
      ensures filler == c
      ensures dynamic == old(dynamic) && columnsplitter == old(columnsplitter) && data == old(data)
    {
      filler := c;
    }

    /** `setColumnsplitter(s)`. */
    method SetColumnsplitter(s: string)
      modifies this
      ensures columnsplitter == s
      ensures dynamic == old(dynamic) && filler == old(filler) && data == old(data)
    {
      columnsplitter := s;
    }

    /** The growing branch of `setWidth`: appends empty columns up to `width`. */
    method Grow(width: int)
      requires Valid() && |data| <= width <= INT_MAX
      modifies this
      ensures Valid() && data == old(data) + Empties(width - |old(data)|)
      ensures dynamic == old(dynamic) && filler == old(filler) && columnsplitter == old(columnsplitter)
    {
      var i := |data|;
      while i < width
        invariant |old(data)| <= i <= width && data == old(data) + Empties(i - |old(data)|)
        invariant dynamic == old(dynamic) && filler == old(filler) && columnsplitter == old(columnsplitter)
      {
        data := data + [map[]];
        i := i + 1;
      }
    }

    /** `setWidth(width)` as written: a negative width throws
        IllegalArgumentException and a larger one appends empty columns; a
        smaller one removes the last column, then counts upwards past the end of
        the list and throws IndexOutOfBoundsException. */
    method SetWidth(width: int) returns (o: Outcome)
      requires Valid() && IsInt(width)
      modifies this
      ensures Valid()
      ensures dynamic == old(dynamic) && filler == old(filler) && columnsplitter == old(columnsplitter)
      ensures width < 0 ==> o == Fail(IllegalArgument) && data == old(data)
      ensures 0 <= width && |old(data)| <= width ==> o == Pass && data == old(data) + Empties(width - |old(data)|)
      ensures 0 <= width < |old(data)| ==> o == Fail(IndexOutOfBounds) && data == old(data)[..|old(data)| - 1]
    {
      if width < 0 {
        return Fail(IllegalArgument);
      }
      if |data| < width {
        Grow(width);
      } else if |data| > width {
        var i := |data| - 1;
        while i >= width
          invariant (i == |old(data)| - 1 && data == old(data))
            || (i == |old(data)| && data == old(data)[..|old(data)| - 1])
          invariant dynamic == old(dynamic) && filler == old(filler) && columnsplitter == old(columnsplitter)
          decreases |data| + 1 - i
        {
          if i >= |data| {
            return Fail(IndexOutOfBounds);
          }
          data := data[..i] + data[i + 1..];
          i := i + 1;
        }
      }
      o := Pass;
    }

    /** `setWidth(width)` with the removing loop counting down, as its comment
        describes: the table keeps its first `width` columns. */
    method SetWidthFixed(width: int) returns (o: Outcome)
      requires Valid() && IsInt(width)
      modifies this
      ensures Valid()
      ensures dynamic == old(dynamic) && filler == old(filler) && columnsplitter == old(columnsplitter)
      ensures width < 0 <==> o.Fail?
      ensures width < 0 ==> o == Fail(IllegalArgument) && data == old(data)
      ensures 0 <= width && |old(data)| <= width ==> data == old(data) + Empties(width - |old(data)|)
      ensures 0 <= width < |old(data)| ==> data == old(data)[..width]
    {
      if width < 0 {
        return Fail(IllegalArgument);
      }
      if |data| < width {
        Grow(width);
      } else if |data| > width {
        var i := |data| - 1;
        while i >= width
          invariant width - 1 <= i < |old(data)| && data == old(data)[..i + 1]
          invariant dynamic == old(dynamic) && filler == old(filler) && columnsplitter == old(columnsplitter)
        {
          data := data[..i] + data[i + 1..];
          i := i - 1;
        }
      }
      o := Pass;
    }

    /** `set(col, row, value)`: a negative column or row throws
        IllegalArgumentException; a column past the end throws on a static
        table and widens a dynamic one to `col + 1` columns (in `int`
        arithmetic, so `Integer.MAX_VALUE` throws too); then the cell is
        written and nothing else changes. */
    method Set(col: int, row: int, value: string) returns (o: Outcome)
      requires Valid() && IsInt(col) && IsInt(row)
      modifies this
      ensures Valid()
      ensures dynamic == old(dynamic) && filler == old(filler) && columnsplitter == old(columnsplitter)
      ensures o.Pass? <==> 0 <= col && 0 <= row && (col < |old(data)| || (dynamic && col < INT_MAX))
      ensures o.Fail? ==> o == Fail(IllegalArgument) && data == old(data)
      ensures o.Pass? ==> |data| == (if col < |old(data)| then |old(data)| else col + 1)
      ensures o.Pass? ==> data[col] == Cells(old(data), col)[row := value]
      ensures o.Pass? ==> forall c :: 0 <= c < |data| && c != col ==> data[c] == Cells(old(data), c)
      ensures o.Pass? ==> Highest(data) == Max(Highest(old(data)), row)
    {
      if col < 0 {
        return Fail(IllegalArgument);
      }
      if row < 0 {
        return Fail(IllegalArgument);
      }
      if col >= |data| {
        if dynamic {
          var grown := SetWidthFixed(WrapInt(col + 1));
          if grown.Fail? {
            return grown;
          }
          HighestAfterGrow(old(data), |data| - |old(data)|);
        } else {
          return Fail(IllegalArgument);
        }
      }
      WriteCell(old(data), data, col, row, value);
      data := data[col := data[col][row := value]];
      o := Pass;
    }

    /** `removeColumn(col)`: a column out of bounds throws
        IllegalArgumentException; otherwise the column is removed, and a static
        table first gets one more empty column, so it keeps its width. */
    method RemoveColumn(col: int) returns (o: Outcome)
      requires Valid()
      modifies this
      ensures Valid()
      ensures dynamic == old(dynamic) && filler == old(filler) && columnsplitter == old(columnsplitter)
      ensures o.Pass? <==> 0 <= col < |old(data)| && (dynamic || |old(data)| < INT_MAX)
      ensures o.Fail? ==> o == Fail(IllegalArgument) && data == old(data)
      ensures o.Pass? && dynamic ==> data == old(data)[..col] + old(data)[col + 1..]
      ensures o.Pass? && !dynamic ==> data == old(data)[..col] + old(data)[col + 1..] + [map[]]
    {
      if col < 0 || col >= |data| {
        return Fail(IllegalArgument);
      }
      if !dynamic {
        var grown := SetWidthFixed(WrapInt(|data| + 1));
        if grown.Fail? {
          return grown;
        }
        assert data == old(data) + [map[]];
      }
      data := data[..col] + data[col + 1..];
      o := Pass;
    }

    /** `removeRow(row)`: a row below 0 or above the highest index throws
        IllegalArgumentException; otherwise the row's cell is removed from
        every column. */
    method RemoveRow(row: int) returns (o: Outcome)
      requires Valid()
      modifies this
      ensures Valid()
      ensures dynamic == old(dynamic) && filler == old(filler) && columnsplitter == old(columnsplitter)
      ensures o.Fail? <==> row < 0 || row > Highest(old(data))
      ensures o.Fail? ==> o == Fail(IllegalArgument) && data == old(data)
      ensures o.Pass? ==> data == Dropped(old(data), Only(row))
    {
      var l := HighestIndex(data);
      if row < 0 || row > l {
        return Fail(IllegalArgument);
      }
      DropAll(Only(row));
      o := Pass;
    }

    /** `pruneRows(rows)`: a negative count throws IllegalArgumentException;
        otherwise every cell at row `rows` or beyond is removed. */
    method PruneRows(rows: int) returns (o: Outcome)
      requires Valid()
      modifies this
      ensures Valid()
      ensures dynamic == old(dynamic) && filler == old(filler) && columnsplitter == old(columnsplitter)
      ensures o.Fail? <==> rows < 0
      ensures o.Fail? ==> o == Fail(IllegalArgument) && data == old(data)
      ensures o.Pass? ==> data == Dropped(old(data), AtOrBeyond(rows))
      ensures o.Pass? && rows > 0 ==> Highest(data) < rows
    {
      if rows < 0 {
        return Fail(IllegalArgument);
      }
      DropAll(AtOrBeyond(rows));
      if rows > 0 {
        HighestAfterPrune(old(data), rows);
      }
      o := Pass;
    }

    /** The loop over the columns shared by `removeRow` and `pruneRows`. */
    method DropAll(drop: int -> bool)
      requires Valid()
      modifies this
      ensures Valid() && data == Dropped(old(data), drop)
      ensures dynamic == old(dynamic) && filler == old(filler) && columnsplitter == old(columnsplitter)
    {
      var j := 0;
      while j < |data|
        invariant 0 <= j <= |data| == |old(data)|
        invariant forall c :: 0 <= c < j ==> data[c] == Without(old(data)[c], drop)
        invariant forall c :: j <= c < |data| ==> data[c] == old(data)[c]
        invariant dynamic == old(dynamic) && filler == old(filler) && columnsplitter == old(columnsplitter)
      {
        var t := RemoveKeys(data[j], drop);
        data := data[j := t];
        j := j + 1;
      }
    }

    /** `columns()`: the number of columns. */
    function Columns(): (n: int)
      reads this
      ensures n == |data|
    {
      |data|
    }

    /** `rows()`: the highest row index in use, not a count. */
    method Rows() returns (r: int)
      ensures r == Highest(data)
    {
      r := HighestIndex(data);
    }

    /** `toString()`: for each row from 0 to the highest index, each column's
        cell padded with the filler to the column's width and followed by the
        splitter; rows are separated by '\n'. A highest index of
        `Integer.MAX_VALUE` would make the Java loop wrap around and never end. */
    method ToString() returns (r: string)
      requires Highest(data) < INT_MAX
      ensures r == Render(data, filler, columnsplitter)
    {
      var sb := "";
      var l := HighestIndex(data);
      ghost var rows := RowTexts(data, filler, columnsplitter);
      var c := 0;
      while c <= l
        invariant 0 <= c <= l + 1 == |rows|
        invariant sb == Built(rows, c)
      {
        var rb := RowOf(c);
        ghost var before := sb;
        sb := sb + rb;
        if c != l {
          sb := sb + "\n";
        }
        LineStep(rows, c, before, sb);
        c := c + 1;
      }
      BuiltAll(rows);
      r := sb;
    }

    /** The row builder of `toString` for row `row`. */
    method RowOf(row: int) returns (rb: string)
      ensures rb == RowText(data, row, filler, columnsplitter)
    {
      rb := "";
      var j := 0;
      while j < |data|
        invariant 0 <= j <= |data|
        invariant rb == RowText(data[..j], row, filler, columnsplitter)
      {
        var col := data[j];
        var item := if row in col then col[row] else "";
        var colwidth := Widest(col);
        var bb := Pad(item, colwidth, filler);
        assert data[..j + 1][..j] == data[..j];
        rb := rb + bb + columnsplitter;
        j := j + 1;
      }
      assert data[..j] == data;
    }
  }

  // ---------------------------------------------------------------------------
  // Helpers of the table's methods

  /** The columns of `d` widened to include `col`, as `set` leaves them before writing. */
  function Cells(d: seq<Column>, c: int): Column {
    if 0 <= c < |d| then d[c] else map[]
  }

  /** A column without the rows `drop` accepts. */
  function Without(m: Column, drop: int -> bool): (r: Column)
    ensures forall k :: k in r <==> k in m && !drop(k)
    ensures forall k :: k in r ==> r[k] == m[k]
  {
    map k | k in m && !drop(k) :: m[k]
  }

  /** The row `removeRow(row)` removes. */
  function Only(row: int): int -> bool {
    k => k == row
  }

  /** The rows `pruneRows(rows)` removes. */
  function AtOrBeyond(rows: int): int -> bool {
    k => k >= rows
  }

  /** Every column without the rows `drop` accepts. */
  function Dropped(d: seq<Column>, drop: int -> bool): (r: seq<Column>)
    ensures |r| == |d| && forall c :: 0 <= c < |d| ==> r[c] == Without(d[c], drop)
  {
    seq(|d|, c requires 0 <= c < |d| => Without(d[c], drop))
  }

  // ---------------------------------------------------------------------------
  // removeRow and pruneRows as written: `t.remove(i)` inside `for (Integer i : t.keySet())`

  /** `order` lists the keys of `m`, each once: an order in which `keySet()` can
      visit them. */
  predicate Enumerates(order: seq<int>, m: Column) {
    (forall k :: k in m ==> k in order)
    && (forall i :: 0 <= i < |order| ==> order[i] in m)
    && (forall i, j :: 0 <= i < j < |order| ==> order[i] != order[j])
  }

  /** The position of the first key in `order` that `drop` accepts. */
  function FirstDropped(order: seq<int>, drop: int -> bool): (r: Option<nat>)
    ensures r.Some? ==> r.value < |order| && drop(order[r.value])
    ensures r.Some? ==> forall i :: 0 <= i < r.value ==> !drop(order[i])
    ensures r.None? ==> forall i :: 0 <= i < |order| ==> !drop(order[i])
  {
    if order == [] then None
    else if drop(order[0]) then Some(0)
    else match FirstDropped(order[1..], drop)
      case None => None
      case Some(i) => Some(i + 1)
  }

  /** Some key that `drop` accepts is visited before the last key. */
  predicate Blocked(order: seq<int>, drop: int -> bool) {
    exists i :: 0 <= i < |order| - 1 && drop(order[i])
  }

  /** One column of the loop as written. The first accepted key is removed
      through the map, not the iterator; the iterator's next `next()` then throws
      ConcurrentModificationException, so the loop ends normally only when that
      key was the last one visited. */
  function DropColumn(m: Column, order: seq<int>, drop: int -> bool): (Outcome, Column) {
    match FirstDropped(order, drop)
    case None => (Pass, m)
    case Some(i) => (if i == |order| - 1 then Pass else Fail(ConcurrentModification), m - {order[i]})
  }

  /** `removeRow` and `pruneRows` as written, once the bounds check has passed:
      the columns in list order, each through `DropColumn` with its own visiting
      order; the first exception leaves the later columns untouched. */
  function DropAsWritten(d: seq<Column>, drop: int -> bool, orders: seq<seq<int>>): (Outcome, seq<Column>)
    requires |orders| == |d|
    decreases |d|
  {
    if d == [] then (Pass, [])
    else
      var (o, col) := DropColumn(d[0], orders[0], drop);
      if o.Fail? then (o, [col] + d[1..])
      else
        var (o2, rest) := DropAsWritten(d[1..], drop, orders[1..]);
        (o2, [col] + rest)
  }

  /** The loop as written throws exactly when, in some column, an accepted key
      is visited before the last key; otherwise it removes what `Dropped` removes. */
  lemma {:induction false} DropAsWrittenOutcome(d: seq<Column>, drop: int -> bool, orders: seq<seq<int>>)
    requires |orders| == |d| && forall c :: 0 <= c < |d| ==> Enumerates(orders[c], d[c])
    ensures DropAsWritten(d, drop, orders).0.Fail?
      <==> exists c :: 0 <= c < |d| && Blocked(orders[c], drop)
    ensures DropAsWritten(d, drop, orders).0.Fail? ==> DropAsWritten(d, drop, orders).0 == Fail(ConcurrentModification)
    ensures DropAsWritten(d, drop, orders).0.Pass? ==> DropAsWritten(d, drop, orders).1 == Dropped(d, drop)
    decreases |d|
  {
    if d != [] {
      DropColumnOutcome(d[0], orders[0], drop);
      if !Blocked(orders[0], drop) {
        TailEnumerates(d, orders);
        DropAsWrittenOutcome(d[1..], drop, orders[1..]);
        BlockedInTail(d, drop, orders);
        DroppedCons(d, drop);
      }
    }
  }

  lemma {:induction false} TailEnumerates(d: seq<Column>, orders: seq<seq<int>>)
    requires |orders| == |d| > 0 && forall c :: 0 <= c < |d| ==> Enumerates(orders[c], d[c])
    ensures forall c :: 0 <= c < |d| - 1 ==> Enumerates(orders[1..][c], d[1..][c])
  {
    forall c | 0 <= c < |d| - 1 ensures Enumerates(orders[1..][c], d[1..][c]) {
      assert orders[1..][c] == orders[c + 1] && d[1..][c] == d[c + 1];
    }
  }

  /** When the first column is not blocked, some column is blocked exactly when
      some later column is. */
  lemma {:induction false} BlockedInTail(d: seq<Column>, drop: int -> bool, orders: seq<seq<int>>)
    requires |orders| == |d| > 0 && !Blocked(orders[0], drop)
    ensures (exists c :: 0 <= c < |d| && Blocked(orders[c], drop))
      <==> exists c :: 0 <= c < |d| - 1 && Blocked(orders[1..][c], drop)
  {
    if exists c :: 0 <= c < |d| && Blocked(orders[c], drop) {
      var c :| 0 <= c < |d| && Blocked(orders[c], drop);
      assert orders[1..][c - 1] == orders[c];
    }
    if exists c :: 0 <= c < |d| - 1 && Blocked(orders[1..][c], drop) {
      var c :| 0 <= c < |d| - 1 && Blocked(orders[1..][c], drop);
      assert orders[1..][c] == orders[c + 1];
    }
  }

  lemma {:induction false} DroppedCons(d: seq<Column>, drop: int -> bool)
    requires d != []
    ensures [Without(d[0], drop)] + Dropped(d[1..], drop) == Dropped(d, drop)
  {
  }

  /** One column: the loop throws exactly when it is blocked, and otherwise
      leaves the column without the accepted keys. */
  lemma {:induction false} DropColumnOutcome(m: Column, order: seq<int>, drop: int -> bool)
    requires Enumerates(order, m)
    ensures DropColumn(m, order, drop).0.Fail? <==> Blocked(order, drop)
    ensures DropColumn(m, order, drop).0.Fail? ==> DropColumn(m, order, drop).0 == Fail(ConcurrentModification)
    ensures DropColumn(m, order, drop).0.Pass? ==> DropColumn(m, order, drop).1 == Without(m, drop)
  {
    match FirstDropped(order, drop)
    case None =>
      forall x | x in m ensures !drop(x) {
        var j :| 0 <= j < |order| && order[j] == x;
      }
      assert Without(m, drop) == m;
    case Some(i) =>
      if i < |order| - 1 {
        assert Blocked(order, drop);
      } else {
        var k := order[i];
        assert forall j :: 0 <= j < |order| && drop(order[j]) ==> j == i;
        forall x | x in m && drop(x) ensures x == k {
          var j :| 0 <= j < |order| && order[j] == x;
        }
        assert Without(m, drop) == m - {k};
      }
  }

  /** `removeRow(0)` after `set(0, 0, "a")` and `set(0, 1, "b")`: a `HashMap` of
      default capacity visits 0 before 1, so removing 0 makes the loop throw. */
  lemma {:induction false} RemoveRowAsWrittenThrows()
    ensures DropAsWritten([map[0 := "a", 1 := "b"]], Only(0), [[0, 1]]) == (Fail(ConcurrentModification), [map[1 := "b"]])
  {
    var m: Column := map[0 := "a", 1 := "b"];
    assert FirstDropped([0, 1], Only(0)) == Some(0);
    assert m - {0} == map[1 := "b"];
    var d, orders := [m], [[0, 1]];
    assert d[0] == m && orders[0] == [0, 1] && d[1..] == [];
    assert DropColumn(d[0], orders[0], Only(0)) == (Fail(ConcurrentModification), map[1 := "b"]);
    assert DropAsWritten(d, Only(0), orders) == (Fail(ConcurrentModification), [map[1 := "b"]] + []);
    assert [map[1 := "b"]] + [] == [map[1 := "b"]];
    assert d == [map[0 := "a", 1 := "b"]];
  }

  /** `removeRow(43)` on a column holding rows 1 and 43: a `HashMap` of default
      capacity visits 1 (bucket 1) before 43 (bucket 11), so 43 is removed last
      and the loop ends normally. */
  lemma {:induction false} RemoveLastVisitedPasses()
    ensures DropColumn(map[1 := "2", 43 := "test"], [1, 43], Only(43)) == (Pass, map[1 := "2"])
  {
    var m: Column := map[1 := "2", 43 := "test"];
    assert FirstDropped([1, 43], Only(43)) == Some(1) by {
      assert FirstDropped([43], Only(43)) == Some(0);
      assert [1, 43][1..] == [43];
    }
    assert m - {43} == map[1 := "2"];
  }

  /** A column with two keys at or beyond `rows` makes `pruneRows(rows)` as
      written throw, whatever the visiting order. */
  lemma {:induction false} PruneTwoBlocked(order: seq<int>, rows: int, i: int, j: int)
    requires 0 <= i < j < |order| && order[i] >= rows && order[j] >= rows
    ensures Blocked(order, AtOrBeyond(rows))
  {
    assert AtOrBeyond(rows)(order[i]);
  }

  /** The inner loop of `removeRow` and `pruneRows`: each key of the column is
      visited once and removed when `drop` accepts it. */
  method RemoveKeys(m: Column, drop: int -> bool) returns (t: Column)
    ensures t == Without(m, drop)
  {
    t := m;
    var keys := m.Keys;
    while keys != {}
      invariant keys <= m.Keys
      invariant forall k :: k in t <==> k in m && (k in keys || !drop(k))
      invariant forall k :: k in t ==> t[k] == m[k]
      decreases keys
    {
      NonEmpty(keys);
      var i :| i in keys;
      if drop(i) {
        t := t - {i};
      }
      keys := keys - {i};
    }
    assert forall k :: k !in keys;
    assert forall k :: k in t <==> k in m && !drop(k);
    assert t.Keys == Without(m, drop).Keys;
    assert forall k :: k in t ==> t[k] == Without(m, drop)[k];
  }

  /** The loop `while (bb.length() < colwidth) bb.append(filler)`. */
  method Pad(item: string, colwidth: int, filler: char) returns (bb: string)
    ensures bb == Padded(item, colwidth, filler)
  {
    bb := item;
    while |bb| < colwidth
      invariant |item| <= |bb| && bb == item + seq(|bb| - |item|, _ => filler)
      invariant |item| < colwidth ==> |bb| <= colwidth
      invariant |item| >= colwidth ==> bb == item
      decreases colwidth - |bb|
    {
      bb := bb + [filler];
    }
    if |item| >= colwidth {
      assert bb == item;
    }
  }

  /** `widest(col)`: the longest cell length, scanning the column's values. */
  method Widest(m: Column) returns (l: int)
    ensures l == Width(m)
  {
    l := 0;
    var rest := m.Values;
    ghost var seen: set<string> := {};
    while rest != {}
      invariant rest + seen == m.Values
      invariant IsMaxOf(l, Lengths(seen), 0)
      decreases rest
    {
      var s :| s in rest;
      IsMaxOfAdd(l, Lengths(seen), 0, |s|);
      if |s| > l {
        l := |s|;
      }
      assert Lengths(seen + {s}) == Lengths(seen) + {|s|};
      seen := seen + {s};
      rest := rest - {s};
    }
    MaxOfIs(l, Lengths(m.Values), 0);
  }

  /** `highestIndex(data)`: the largest key of any column, scanning column by column. */
  method HighestIndex(d: seq<Column>) returns (l: int)
    ensures l == Highest(d)
  {
    l := 0;
    var j := 0;
    while j < |d|
      invariant 0 <= j <= |d|
      invariant IsMaxOf(l, Keys(d[..j]), 0)
    {
      var keys := d[j].Keys;
      while keys != {}
        invariant keys <= d[j].Keys
        invariant IsMaxOf(l, Keys(d[..j]) + (d[j].Keys - keys), 0)
        decreases keys
      {
        NonEmpty(keys);
        var i :| i in keys;
        IsMaxOfAdd(l, Keys(d[..j]) + (d[j].Keys - keys), 0, i);
        if i > l {
          l := i;
        }
        assert Keys(d[..j]) + (d[j].Keys - (keys - {i})) == Keys(d[..j]) + (d[j].Keys - keys) + {i};
        keys := keys - {i};
      }
      assert d[j].Keys - keys == d[j].Keys;
      KeysSnoc(d, j);
      j := j + 1;
    }
    assert d[..j] == d;
    MaxOfIs(l, Keys(d), 0);
  }

  lemma {:induction false} KeysSnoc(d: seq<Column>, j: int)
    requires 0 <= j < |d|
    ensures Keys(d[..j + 1]) == Keys(d[..j]) + d[j].Keys
  {
    var p := d[..j + 1];
    forall k | k in Keys(d[..j]) + d[j].Keys
      ensures k in Keys(p)
    {
      if k in d[j].Keys {
        assert k in p[j];
      } else {
        var c :| 0 <= c < j && k in d[..j][c];
        assert k in p[c];
      }
    }
    forall k | k in Keys(p)
      ensures k in Keys(d[..j]) + d[j].Keys
    {
      var c :| 0 <= c < |p| && k in p[c];
      if c < j {
        assert k in d[..j][c];
      }
    }
  }

  /** One turn of the loop in `toString`: the row, then '\n' unless it is the last. */
  lemma {:induction false} LineStep(rows: seq<string>, c: int, before: string, after: string)
    requires 0 <= c < |rows| && before == Built(rows, c)
    requires after == before + rows[c] + (if c != |rows| - 1 then "\n" else "")
    ensures after == Built(rows, c + 1)
  {
    assert rows[..c + 1] == rows[..c] + [rows[c]];
    ArrayUtil.JoinedSnoc(rows[..c], rows[c], "\n");
  }

  /** The builder of `toString` after `c` rows: the rows joined by newlines,
      with a newline after the last unless it is the last row of the table. */
  ghost function Built(rows: seq<string>, c: int): string
    requires 0 <= c <= |rows|
  {
    if c == 0 then "" else if c < |rows| then ArrayUtil.Joined(rows[..c], "\n") + "\n"
    else ArrayUtil.Joined(rows[..c], "\n")
  }

  /** After every row the builder holds the rows joined by newlines. */
  lemma {:induction false} BuiltAll(rows: seq<string>)
    requires |rows| >= 1
    ensures Built(rows, |rows|) == ArrayUtil.Joined(rows, "\n")
  {
    assert rows[..|rows|] == rows;
  }
}

/** The table built by the dynamic-table scenario of the project's tests, and its text. */
module TextTableExample {
  import opened JavaLang
  import opened TextTable
  import ArrayUtil

  /** The columns after: a 1-column static table; cell (0,0) = "1"; switched
      to dynamic; cell (4,0) = "SE"; column 4 removed; cells (2,1) = "2",
      (3,3) = "3" and (3,4) = "AB". */
  const DynamicColumns: seq<Column> := [map[0 := "1"], map[], map[1 := "2"], map[3 := "3", 4 := "AB"]]

  /** The scenario run through the table's methods, then rendered: five rows of
      equal width, with the blank cells filled. */
  method DynamicExample() returns (r: string)
    ensures r == "1       \n   2    \n        \n     3  \n     AB "
  {
    var t := DynamicStart();
    DynamicFinish(t);
    DynamicRender(DynamicColumns);
    r := t.ToString();
  }

  /** The first half of the scenario: a 1-column static table gets "1" at (0,0),
      turns dynamic, gets "SE" at (4,0) and loses column 4 again. */
  method DynamicStart() returns (t: TextTable)
    ensures fresh(t) && t.Valid() && t.dynamic && t.filler == ' ' && t.columnsplitter == " "
    ensures t.data == [map[0 := "1"], map[], map[], map[]]
  {
    var created := TextTable.Create(1);
    t := created.value;
    var o := t.Set(0, 0, "1");
    assert t.data == [map[0 := "1"]];
    t.SetDynamic(true);
    o := t.Set(4, 0, "SE");
    assert t.data == [map[0 := "1"], map[], map[], map[], map[0 := "SE"]];
    o := t.RemoveColumn(4);
  }

  /** The second half of the scenario: cells (2,1), (3,3) and (3,4) are written. */
  method DynamicFinish(t: TextTable)
    requires t.Valid() && t.dynamic && t.data == [map[0 := "1"], map[], map[], map[]]
    modifies t
    ensures t.Valid() && t.dynamic == old(t.dynamic) && t.filler == old(t.filler)
    ensures t.columnsplitter == old(t.columnsplitter) && t.data == DynamicColumns
  {
    var o := t.Set(2, 1, "2");
    assert t.data == [map[0 := "1"], map[], map[1 := "2"], map[]];
    o := t.Set(3, 3, "3");
    assert t.data == [map[0 := "1"], map[], map[1 := "2"], map[3 := "3"]];
    o := t.Set(3, 4, "AB");
  }

  /** The text of the scenario's table. */
  lemma DynamicRender(d: seq<Column>)
    requires d == DynamicColumns
    ensures Highest(d) == 4
    ensures Render(d, ' ', " ") == "1       \n   2    \n        \n     3  \n     AB "
  {
    DynamicHighest(d);
    DynamicWidths(d);
    var rows := RowTexts(d, ' ', " ");
    RowStrings();
    DynamicRow(d, 0, "1", "", " ", "  ");
    DynamicRow(d, 1, " ", "", "2", "  ");
    DynamicRow(d, 2, " ", "", " ", "  ");
    DynamicRow(d, 3, " ", "", " ", "3 ");
    DynamicRow(d, 4, " ", "", " ", "AB");
    JoinedFive(rows, "\n");
    DynamicText(rows[0], rows[1], rows[2], rows[3], rows[4]);
  }

  /** One row of the scenario's table: column 0 holds "1" at row 0, column 1
      nothing, column 2 "2" at row 1, column 3 "3" at row 3 and "AB" at row 4. */
  lemma DynamicRow(d: seq<Column>, row: int, p0: string, p1: string, p2: string, p3: string)
    requires d == DynamicColumns && 0 <= row <= 4
    requires Width(d[0]) == 1 && Width(d[1]) == 0 && Width(d[2]) == 1 && Width(d[3]) == 2
    requires p0 == (if row == 0 then "1" else " ") && p1 == "" && p2 == (if row == 1 then "2" else " ")
    requires p3 == (if row == 3 then "3 " else if row == 4 then "AB" else "  ")
    ensures RowText(d, row, ' ', " ") == p0 + " " + p1 + " " + p2 + " " + p3 + " "
  {
    PadTo("", 1, " ");
    PadTo("", 2, "  ");
    PadTo("3", 2, "3 ");
    RowOfFour(d, row, p0, p1, p2, p3);
  }

  /** A row of a four-column table with a one-space splitter, from its padded cells. */
  lemma RowOfFour(d: seq<Column>, row: int, p0: string, p1: string, p2: string, p3: string)
    requires |d| == 4
    requires Padded(Cell(d[0], row), Width(d[0]), ' ') == p0 && Padded(Cell(d[1], row), Width(d[1]), ' ') == p1
    requires Padded(Cell(d[2], row), Width(d[2]), ' ') == p2 && Padded(Cell(d[3], row), Width(d[3]), ' ') == p3
    ensures RowText(d, row, ' ', " ") == p0 + " " + p1 + " " + p2 + " " + p3 + " "
  {
    assert d[..0] == [];
    RowStep(d, 0, row, ' ', " ");
    var r1 := p0 + " ";
    assert RowText(d[..1], row, ' ', " ") == r1;
    RowStep(d, 1, row, ' ', " ");
    var r2 := r1 + p1 + " ";
    assert RowText(d[..2], row, ' ', " ") == r2;
    RowStep(d, 2, row, ' ', " ");
    var r3 := r2 + p2 + " ";
    assert RowText(d[..3], row, ' ', " ") == r3;
    RowStep(d, 3, row, ' ', " ");
    assert d[..4] == d;
  }

  /** The scenario's rows, cell by cell. */
  lemma RowStrings()
    ensures "1" + " " + "" + " " + " " + " " + "  " + " " == "1       "
    ensures " " + " " + "" + " " + "2" + " " + "  " + " " == "   2    "
    ensures " " + " " + "" + " " + " " + " " + "  " + " " == "        "
    ensures " " + " " + "" + " " + " " + " " + "3 " + " " == "     3  "
    ensures " " + " " + "" + " " + " " + " " + "AB" + " " == "     AB "
  {
  }

  /** The scenario's rows, joined. */
  lemma DynamicText(a: string, b: string, c: string, d: string, e: string)
    requires a == "1       " && b == "   2    " && c == "        " && d == "     3  " && e == "     AB "
    ensures a + "\n" + b + "\n" + c + "\n" + d + "\n" + e == "1       \n   2    \n        \n     3  \n     AB "
  {
    var x := a + "\n" + b + "\n";
    assert x == "1       \n   2    \n";
    var y := x + c + "\n";
    assert y == "1       \n   2    \n        \n";
    var z := y + d + "\n";
    assert z == "1       \n   2    \n        \n     3  \n";
  }

  lemma DynamicHighest(d: seq<Column>)
    requires d == DynamicColumns
    ensures Highest(d) == 4
  {
    forall k | k in Keys(d)
      ensures k in {0, 1, 3, 4}
    {
      var c :| 0 <= c < |d| && k in d[c];
    }
    assert 0 in d[0] && 1 in d[2] && 3 in d[3] && 4 in d[3];
    assert Keys(d) == {0, 1, 3, 4};
    MaxOfIs(4, Keys(d), 0);
  }

  lemma DynamicWidths(d: seq<Column>)
    requires d == DynamicColumns
    ensures Width(d[0]) == 1 && Width(d[1]) == 0 && Width(d[2]) == 1 && Width(d[3]) == 2
  {
    OneValue(d[0], 0, "1");
    MaxOfIs(1, Lengths(d[0].Values), 0);
    assert d[1].Values == {};
    assert Lengths({}) == {};
    MaxOfIs(0, Lengths(d[1].Values), 0);
    OneValue(d[2], 1, "2");
    MaxOfIs(1, Lengths(d[2].Values), 0);
    TwoValues(d[3], 3, "3", 4, "AB");
    MaxOfIs(2, Lengths(d[3].Values), 0);
  }

  lemma OneValue(m: Column, k: int, v: string)
    requires m == map[k := v]
    ensures Lengths(m.Values) == {|v|}
  {
    assert v in m.Values by { assert m[k] == v; }
    assert m.Values == {v};
  }

  lemma TwoValues(m: Column, k: int, v: string, j: int, w: string)
    requires k != j && m == map[k := v, j := w]
    ensures Lengths(m.Values) == {|v|, |w|}
  {
    assert v in m.Values by { assert m[k] == v; }
    assert w in m.Values by { assert m[j] == w; }
    assert m.Values == {v, w};
  }

  /** A cell padded with spaces. */
  lemma PadTo(item: string, width: int, text: string)
    requires |item| <= width == |text| && text[..|item|] == item
    requires forall i :: |item| <= i < width ==> text[i] == ' '
    ensures Padded(item, width, ' ') == text
  {
    if |item| < width {
      assert item + seq(width - |item|, _ => ' ') == text;
    }
  }

  /** Rendering one more column of a row. */
  lemma RowStep(cols: seq<Column>, k: int, row: int, filler: char, splitter: string)
    requires 0 <= k < |cols|
    ensures RowText(cols[..k + 1], row, filler, splitter)
      == RowText(cols[..k], row, filler, splitter) + Padded(Cell(cols[k], row), Width(cols[k]), filler) + splitter
  {
    assert cols[..k + 1][..k] == cols[..k];
  }

  lemma JoinedFive(rows: seq<string>, d: string)
    requires |rows| == 5
    ensures ArrayUtil.Joined(rows, d) == rows[0] + d + rows[1] + d + rows[2] + d + rows[3] + d + rows[4]
  {
    assert rows[..1] == [rows[0]];
    ArrayUtil.JoinedSnoc(rows[..1], rows[1], d);
    assert rows[..1] + [rows[1]] == rows[..2];
    ArrayUtil.JoinedSnoc(rows[..2], rows[2], d);
    assert rows[..2] + [rows[2]] == rows[..3];
    ArrayUtil.JoinedSnoc(rows[..3], rows[3], d);
    assert rows[..3] + [rows[3]] == rows[..4];
    ArrayUtil.JoinedSnoc(rows[..4], rows[4], d);
    assert rows[..4] + [rows[4]] == rows;
  }
}
