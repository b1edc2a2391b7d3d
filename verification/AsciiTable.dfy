/** The plain-text table printer: one column per key of any item, each as wide as its widest cell. */
module AsciiTable {
  type Item = map<string, string>

  // ----- Sorted keys -----

  /** Strict order of strings by code points. */
  predicate Before(a: string, b: string) {
    b != "" && (a == "" || a[0] < b[0] || (a[0] == b[0] && Before(a[1..], b[1..])))
  }

  /** A string comes before another exactly when it is a proper prefix of it, or the smaller one where they
      first differ. */
  lemma {:induction false} BeforeIff(a: string, b: string)
    ensures Before(a, b) <==>
            || (a <= b && |a| < |b|)
            || exists i :: 0 <= i < |a| && i < |b| && FirstDiffer(a, b, i) && a[i] < b[i]
    decreases |a|
  {
    if a != "" && b != "" {
      if a[0] == b[0] {
        BeforeIff(a[1..], b[1..]);
        assert a == [a[0]] + a[1..] && b == [b[0]] + b[1..];
        forall i | 0 < i < |a| && i < |b| ensures FirstDiffer(a, b, i) <==> FirstDiffer(a[1..], b[1..], i - 1) {
          DifferLater(a, b, i);
        }
        if i :| 0 <= i < |a| - 1 && i < |b| - 1 && FirstDiffer(a[1..], b[1..], i) && a[1..][i] < b[1..][i] {
          assert FirstDiffer(a, b, i + 1);
        }
      } else {
        assert FirstDiffer(a, b, 0);
      }
    }
  }

  predicate FirstDiffer(a: string, b: string, i: nat)
    requires i < |a| && i < |b|
  {
    a[i] != b[i] && a[..i] == b[..i]
  }

  lemma DifferLater(a: string, b: string, i: nat)
    requires 0 < i < |a| && i < |b| && a[0] == b[0]
    ensures FirstDiffer(a, b, i) <==> FirstDiffer(a[1..], b[1..], i - 1)
  {
    assert a[..i] == [a[0]] + a[1..][..i - 1] && b[..i] == [b[0]] + b[1..][..i - 1];
  }

  lemma {:induction false} BeforeTotal(a: string, b: string)
    ensures Before(a, b) || a == b || Before(b, a)
    decreases |a|
  {
    if a != "" && b != "" && a[0] == b[0] {
      BeforeTotal(a[1..], b[1..]);
      assert a == [a[0]] + a[1..] && b == [b[0]] + b[1..];
    }
  }

  lemma {:induction false} BeforeTransitive(a: string, b: string, c: string)
    requires Before(a, b) && Before(b, c)
    ensures Before(a, c)
    decreases |a|
  {
    if a != "" && a[0] == b[0] == c[0] {
      BeforeTransitive(a[1..], b[1..], c[1..]);
    }
  }

  predicate Sorted(keys: seq<string>) {
    forall i, j :: 0 <= i < j < |keys| ==> Before(keys[i], keys[j])
  }

  method Least(s: set<string>) returns (m: string)
    requires s != {}
    ensures m in s && forall x <- s :: x == m || Before(m, x)
  {
    m :| m in s;
    var todo := s - {m};
    while todo != {}
      invariant todo <= s && m in s
      invariant forall x <- s :: x in todo || x == m || Before(m, x)
      decreases |todo|
    {
      var x :| x in todo;
      todo := todo - {x};
      BeforeTotal(m, x);
      if Before(x, m) {
        forall y | y in s && Before(m, y) ensures Before(x, y) {
          BeforeTransitive(x, m, y);
        }
        m := x;
      }
    }
  }

  /** `sorted(set)` */
  method SortKeys(s: set<string>) returns (keys: seq<string>)
    ensures Sorted(keys) && forall k :: k in keys <==> k in s
  {
    keys := [];
    var rest := s;
    while rest != {}
      invariant Sorted(keys)
      invariant forall k :: k in s <==> k in keys || k in rest
      invariant forall k, x :: k in keys && x in rest ==> Before(k, x)
      decreases |rest|
    {
      var m := Least(rest);
      keys := keys + [m];
      rest := rest - {m};
    }
  }

  // ----- Rows -----

  function Blanks(n: nat): (s: string)
    ensures |s| == n && forall i :: 0 <= i < n ==> s[i] == ' '
  {
    seq(n, _ => ' ')
  }

  /** `s.ljust(width)` */
  function LJust(s: string, width: nat): string {
    if |s| < width then s + Blanks(width - |s|) else s
  }

  const SEPARATOR := " | "

  /** The cells padded to their widths and joined. */
  function Row(cells: seq<string>, widths: seq<nat>): string
    requires |cells| == |widths|
  {
    if cells == [] then ""
    else if |cells| == 1 then LJust(cells[0], widths[0])
    else LJust(cells[0], widths[0]) + SEPARATOR + Row(cells[1..], widths[1..])
  }

  /** Where column `j` starts. */
  function Offset(widths: seq<nat>, j: nat): nat
    requires j <= |widths|
  {
    if j == 0 then 0 else widths[0] + |SEPARATOR| + Offset(widths[1..], j - 1)
  }

  predicate Fits(cells: seq<string>, widths: seq<nat>) {
    |cells| == |widths| && forall i :: 0 <= i < |cells| ==> |cells[i]| <= widths[i]
  }

  /** A row whose cells fit is as long as the columns ask, whatever the cells. */
  lemma {:induction false} RowLength(cells: seq<string>, widths: seq<nat>)
    requires Fits(cells, widths)
    ensures |Row(cells, widths)| == if cells == [] then 0 else Offset(widths, |widths|) - |SEPARATOR|
    decreases |cells|
  {
    if |cells| > 1 {
      RowLength(cells[1..], widths[1..]);
    } else if |cells| == 1 {
      assert Offset(widths[1..], 0) == 0;
    }
  }

  lemma LJustPads(s: string, width: nat)
    requires |s| <= width
    ensures |LJust(s, width)| == width && s <= LJust(s, width)
    ensures forall i :: |s| <= i < width ==> LJust(s, width)[i] == ' '
  {
  }

  /** The characters of a line that belong to column `j`. */
  function Column(line: string, widths: seq<nat>, j: nat): string
    requires j < |widths|
  {
    Slice(line, Offset(widths, j), widths[j])
  }

  function Slice(line: string, start: nat, width: nat): string {
    if start + width <= |line| then line[start..start + width] else ""
  }

  lemma FirstCell(cells: seq<string>, widths: seq<nat>)
    requires Fits(cells, widths) && cells != []
    ensures widths[0] <= |Row(cells, widths)| && Row(cells, widths)[0..widths[0]] == LJust(cells[0], widths[0])
  {
    LJustPads(cells[0], widths[0]);
    var head := LJust(cells[0], widths[0]);
    if |cells| > 1 {
      SliceBefore(head, SEPARATOR + Row(cells[1..], widths[1..]));
      assert Row(cells, widths) == head + (SEPARATOR + Row(cells[1..], widths[1..]));
    }
  }

  lemma SliceShift(head: string, rest: string, start: nat, width: nat)
    requires start + width <= |rest|
    ensures Slice(head + rest, |head| + start, width) == Slice(rest, start, width)
  {
    var all := head + rest;
    assert all[|head| + start..|head| + start + width] == rest[start..start + width];
  }

  lemma RowAfterFirst(cells: seq<string>, widths: seq<nat>) returns (head: string)
    requires Fits(cells, widths) && |cells| > 1
    ensures |head| == widths[0] + |SEPARATOR| && Row(cells, widths) == head + Row(cells[1..], widths[1..])
    ensures BarAt(head, widths[0])
  {
    LJustPads(cells[0], widths[0]);
    head := LJust(cells[0], widths[0]) + SEPARATOR;
  }

  /** Cutting a row at a column's offset gives that column's cell, padded but not truncated or shifted. */
  lemma {:induction false} RowCell(cells: seq<string>, widths: seq<nat>, j: nat)
    requires Fits(cells, widths) && j < |cells|
    ensures Offset(widths, j) + widths[j] <= |Row(cells, widths)|
    ensures Column(Row(cells, widths), widths, j) == LJust(cells[j], widths[j])
    decreases |cells|
  {
    if j == 0 {
      FirstColumn(cells, widths);
    } else {
      RowCell(cells[1..], widths[1..], j - 1);
      assert cells[1..][j - 1] == cells[j] && widths[1..][j - 1] == widths[j];
      ShiftColumn(cells, widths, j);
    }
  }

  lemma FirstColumn(cells: seq<string>, widths: seq<nat>)
    requires Fits(cells, widths) && cells != []
    ensures Offset(widths, 0) + widths[0] <= |Row(cells, widths)|
    ensures Column(Row(cells, widths), widths, 0) == LJust(cells[0], widths[0])
  {
    FirstCell(cells, widths);
  }

  /** Column `j` of a row is column `j - 1` of the row without its first cell. */
  lemma ShiftColumn(cells: seq<string>, widths: seq<nat>, j: nat)
    requires Fits(cells, widths) && 0 < j < |cells|
    requires Offset(widths[1..], j - 1) + widths[j] <= |Row(cells[1..], widths[1..])|
    ensures Offset(widths, j) + widths[j] <= |Row(cells, widths)|
    ensures Column(Row(cells, widths), widths, j) == Column(Row(cells[1..], widths[1..]), widths[1..], j - 1)
  {
    var o := Offset(widths[1..], j - 1);
    var head := RowAfterFirst(cells, widths);
    SliceShift(head, Row(cells[1..], widths[1..]), o, widths[j]);
    assert Offset(widths, j) == widths[0] + |SEPARATOR| + o;
  }

  /** A bar between blanks stands at a position. */
  predicate BarAt(line: string, p: nat) {
    p + 3 <= |line| && line[p] == ' ' && line[p + 1] == '|' && line[p + 2] == ' '
  }

  /** Between two columns there is a bar between blanks. */
  lemma {:induction false} RowSeparator(cells: seq<string>, widths: seq<nat>, j: nat)
    requires Fits(cells, widths) && j + 1 < |cells|
    ensures BarAt(Row(cells, widths), Offset(widths, j) + widths[j])
    decreases |cells|
  {
    var head := RowAfterFirst(cells, widths);
    if j == 0 {
      assert BarAt(head, widths[0]);
      BarInFront(head, Row(cells[1..], widths[1..]), widths[0]);
    } else {
      RowSeparator(cells[1..], widths[1..], j - 1);
      BarBehind(head, Row(cells[1..], widths[1..]), Offset(widths[1..], j - 1) + widths[1..][j - 1]);
    }
  }

  lemma BarInFront(a: string, b: string, p: nat)
    requires BarAt(a, p)
    ensures BarAt(a + b, p)
  {
  }

  lemma BarBehind(a: string, b: string, p: nat)
    requires BarAt(b, p)
    ensures BarAt(a + b, |a| + p)
  {
  }

  lemma SliceBefore(a: string, b: string)
    ensures (a + b)[0..|a|] == a
  {
  }

  // ----- The table -----

  /** `str(item.get(key, "N/A"))`, the values given as their strings */
  function Cell(item: Item, key: string): string {
    if key in item then item[key] else "N/A"
  }

  function Cells(item: Item, keys: seq<string>): (cs: seq<string>)
    ensures |cs| == |keys|
    ensures forall i :: 0 <= i < |keys| ==> cs[i] == Cell(item, keys[i])
    ensures forall i :: 0 <= i < |keys| ==> cs[i] == if keys[i] in item then item[keys[i]] else "N/A"
  {
    seq(|keys|, i requires 0 <= i < |keys| => Cell(item, keys[i]))
  }

  /** A width holds its header and every cell of its column, and one of them fills it. */
  ghost predicate Tight(width: nat, header: string, items: seq<Item>, key: string) {
    && |header| <= width
    && (forall n :: 0 <= n < |items| ==> |Cell(items[n], key)| <= width)
    && (width == |header| || exists n :: 0 <= n < |items| && width == |Cell(items[n], key)|)
  }

  method Headers(keys: seq<string>, heading: string -> string) returns (headers: seq<string>)
    ensures |headers| == |keys| && forall i :: 0 <= i < |keys| ==> headers[i] == heading(keys[i])
  {
    headers := seq(|keys|, i requires 0 <= i < |keys| => heading(keys[i]));
  }

  method ColumnWidths(items: seq<Item>, keys: seq<string>, headers: seq<string>) returns (widths: seq<nat>)
    requires |headers| == |keys|
    ensures |widths| == |keys| && forall i :: 0 <= i < |keys| ==> Tight(widths[i], headers[i], items, keys[i])
  {
    widths := seq(|headers|, i requires 0 <= i < |headers| => |headers[i]|);
    for n := 0 to |items|
      invariant |widths| == |keys|
      invariant forall i :: 0 <= i < |keys| ==> Tight(widths[i], headers[i], items[..n], keys[i])
    {
      widths := Widen(widths, items, n, keys, headers);
    }
    assert items[..|items|] == items;
  }

  /** One round of the outer loop: widen every column for one more item. */
  method Widen(before: seq<nat>, items: seq<Item>, n: nat, keys: seq<string>, ghost headers: seq<string>)
    returns (widths: seq<nat>)
    requires n < |items| && |headers| == |keys| == |before|
    requires forall i :: 0 <= i < |keys| ==> Tight(before[i], headers[i], items[..n], keys[i])
    ensures |widths| == |keys| && forall i :: 0 <= i < |keys| ==> Tight(widths[i], headers[i], items[..n + 1], keys[i])
  {
    widths := before;
    for i := 0 to |keys|
      invariant |widths| == |keys| && widths[i..] == before[i..]
      invariant forall c :: 0 <= c < i ==> Tight(widths[c], headers[c], items[..n + 1], keys[c])
    {
      assert widths[i] == widths[i..][0] == before[i..][0] == before[i];
      TightExtends(before[i], headers[i], items, keys[i], n);
      var length := |Cell(items[n], keys[i])|;
      if length > widths[i] {
        widths := widths[i := length];
      }
      assert widths[i + 1..] == before[i + 1..] by { assert before[i + 1..] == before[i..][1..]; }
    }
  }

  lemma TightExtends(width: nat, header: string, items: seq<Item>, key: string, n: nat)
    requires n < |items| && Tight(width, header, items[..n], key)
    ensures var length := |Cell(items[n], key)|;
            Tight(if length > width then length else width, header, items[..n + 1], key)
  {
    var before, after := items[..n], items[..n + 1];
    assert after[n] == items[n] && forall m :: 0 <= m < n ==> after[m] == before[m];
    if |Cell(items[n], key)| <= width && width != |header| {
      var m :| 0 <= m < n && width == |Cell(before[m], key)|;
      assert width == |Cell(after[m], key)|;
    }
  }

  /** Every header and cell fits its column. */
  ghost predicate WideEnough(items: seq<Item>, keys: seq<string>, headers: seq<string>, widths: seq<nat>) {
    Fits(headers, widths) && forall n :: 0 <= n < |items| ==> Fits(Cells(items[n], keys), widths)
  }

  lemma TightIsWideEnough(items: seq<Item>, keys: seq<string>, headers: seq<string>, widths: seq<nat>)
    requires |headers| == |keys| == |widths|
    requires forall i :: 0 <= i < |keys| ==> Tight(widths[i], headers[i], items, keys[i])
    ensures WideEnough(items, keys, headers, widths)
  {
  }

  /** A line of the given length whose columns are the given cells, padded. */
  ghost predicate Shows(line: string, cells: seq<string>, widths: seq<nat>, length: nat) {
    && |line| == length && |cells| == |widths|
    && forall j :: 0 <= j < |cells| ==> Column(line, widths, j) == LJust(cells[j], widths[j])
  }

  lemma RowShows(cells: seq<string>, widths: seq<nat>, headers: seq<string>)
    requires Fits(cells, widths) && Fits(headers, widths)
    ensures Shows(Row(cells, widths), cells, widths, |Row(headers, widths)|)
  {
    RowLength(headers, widths);
    RowLength(cells, widths);
    forall j | 0 <= j < |cells| ensures Column(Row(cells, widths), widths, j) == LJust(cells[j], widths[j]) {
      RowCell(cells, widths, j);
    }
  }

  method DataLines(items: seq<Item>, keys: seq<string>, widths: seq<nat>, ghost headers: seq<string>)
    returns (rows: seq<string>)
    requires WideEnough(items, keys, headers, widths)
    ensures |rows| == |items|
    ensures forall n :: 0 <= n < |items| ==> rows[n] == Row(Cells(items[n], keys), widths)
    ensures forall n :: 0 <= n < |items| ==> Shows(rows[n], Cells(items[n], keys), widths, |Row(headers, widths)|)
  {
    rows := [];
    for n := 0 to |items|
      invariant |rows| == n
      invariant forall m :: 0 <= m < n ==> rows[m] == Row(Cells(items[m], keys), widths)
      invariant forall m :: 0 <= m < n ==> Shows(rows[m], Cells(items[m], keys), widths, |Row(headers, widths)|)
    {
      var cells := Cells(items[n], keys);
      RowShows(cells, widths, headers);
      rows := rows + [Row(cells, widths)];
    }
  }

  method AllKeys(items: seq<Item>) returns (keys: seq<string>)
    ensures Sorted(keys) && forall k :: k in keys <==> exists n :: 0 <= n < |items| && k in items[n]
  {
    var all: set<string> := {};
    for n := 0 to |items|
      invariant forall k :: k in all <==> exists m :: 0 <= m < n && k in items[m]
    {
      all := all + items[n].Keys;
    }
    keys := SortKeys(all);
  }

  /** The lines of the table; `heading` makes a header of a key and `lower` is `str.lower`.  The columns are
      the sorted keys, each as wide as its widest entry; below the title the header line, the line of
      dashes and the line of every item have one length, and each column of a line is the entry it shows,
      padded with blanks. */
  method FormatTable(items: seq<Item>, title: string, heading: string -> string, lower: string -> string)
    returns (lines: seq<string>, keys: seq<string>, headers: seq<string>, widths: seq<nat>)
    ensures Sorted(keys) && forall k :: k in keys <==> exists n :: 0 <= n < |items| && k in items[n]
    ensures |headers| == |keys| == |widths| && forall i :: 0 <= i < |keys| ==> headers[i] == heading(keys[i])
    ensures forall i :: 0 <= i < |keys| ==> Tight(widths[i], headers[i], items, keys[i])
    ensures items == [] ==> lines == ["No " + lower(title) + " found."]
    ensures items != [] ==> |lines| == 3 + |items| && lines[0] == "\n" + title + ":"
    ensures items != [] ==> lines[1] == Row(headers, widths) && Shows(lines[1], headers, widths, |lines[1]|)
    ensures items != [] ==> lines[2] == Dashes(|lines[1]|)
    ensures forall n :: 0 <= n < |items| ==> lines[3 + n] == Row(Cells(items[n], keys), widths)
    ensures forall n :: 0 <= n < |items| ==> Shows(lines[3 + n], Cells(items[n], keys), widths, |lines[1]|)
  {
    if items == [] {
      return ["No " + lower(title) + " found."], [], [], [];
    }
    keys := AllKeys(items);
    headers := Headers(keys, heading);
    widths := ColumnWidths(items, keys, headers);
    TightIsWideEnough(items, keys, headers, widths);
    RowShows(headers, widths, headers);
    var header := Row(headers, widths);
    var rows := DataLines(items, keys, widths, headers);
    Assembled("\n" + title + ":", header, Dashes(|header|), rows);
    lines := ["\n" + title + ":", header, Dashes(|header|)] + rows;
  }

  lemma Assembled(first: string, header: string, dashes: string, rows: seq<string>)
    ensures var lines := [first, header, dashes] + rows;
            && |lines| == 3 + |rows| && lines[0] == first && lines[1] == header && lines[2] == dashes
            && forall n :: 0 <= n < |rows| ==> lines[3 + n] == rows[n]
  {
  }

  function Dashes(n: nat): (s: string)
    ensures |s| == n && forall i :: 0 <= i < n ==> s[i] == '-'
  {
    seq(n, _ => '-')
  }
}
