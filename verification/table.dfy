/**
  The text table every listing and report is printed as: one column per
  header, each as wide as its widest entry, cells left-justified and
  separated by " | ", and a dashed rule under the headers. A null cell
  shows as "NULL".
 */
module Table {
  import opened Wrappers

  /** A value in a result row: null, text, or an integer count or id. */
  datatype Cell = Null | Text(text: string) | Number(n: int)

  /** A row with more cells than there are headers has no column width to use. */
  datatype TableError = RowTooLong(row: nat)

  // ----- Decimal rendering of integers -----

  function Digit(d: nat): (c: char)
    requires d < 10
    ensures '0' <= c <= '9'
  {
    (('0' as int) + d) as char
  }

  function DigitValue(c: char): nat
    requires '0' <= c <= '9'
  {
    (c as int) - ('0' as int)
  }

  predicate AllDigits(s: string)
  {
    forall i :: 0 <= i < |s| ==> '0' <= s[i] <= '9'
  }

  /** The decimal digits of `n`, most significant first, with no leading zero. */
  function NatToString(n: nat): (r: string)
    ensures |r| >= 1 && AllDigits(r)
    ensures r[0] == '0' <==> n == 0
    decreases n
  {
    if n < 10 then [Digit(n)] else NatToString(n / 10) + [Digit(n % 10)]
  }

  /** The value of a string of decimal digits. */
  function ParseNat(s: string): nat
    requires AllDigits(s)
    decreases |s|
  {
    if |s| == 0 then 0 else 10 * ParseNat(s[..|s| - 1]) + DigitValue(s[|s| - 1])
  }

  lemma {:induction false} NatRoundTrip(n: nat)
    ensures ParseNat(NatToString(n)) == n
    decreases n
  {
    var r := NatToString(n);
    if n >= 10 {
      NatRoundTrip(n / 10);
      assert r[..|r| - 1] == NatToString(n / 10);
    }
  }

  /** `str(n)` for an integer: a minus sign before the digits of a negative value. */
  function IntToString(n: int): (r: string)
    ensures |r| >= 1
    ensures r[0] == '-' <==> n < 0
  {
    if n < 0 then "-" + NatToString(-n) else NatToString(n)
  }

  function ParseInt(s: string): Option<int>
  {
    if |s| > 1 && s[0] == '-' && AllDigits(s[1..]) then Some(-(ParseNat(s[1..]) as int))
    else if |s| > 0 && AllDigits(s) then Some(ParseNat(s))
    else None
  }

  lemma IntRoundTrip(n: int)
    ensures ParseInt(IntToString(n)) == Some(n)
  {
    if n < 0 {
      NatRoundTrip(-n);
      assert IntToString(n)[1..] == NatToString(-n);
    } else {
      NatRoundTrip(n);
    }
  }

  /** How a cell is shown: "NULL" for null, the text itself, or the integer in decimal. */
  function Render(c: Cell): string
  {
    match c
    case Null => "NULL"
    case Text(t) => t
    case Number(n) => IntToString(n)
  }

  // ----- Padding and joining -----

  function Max(a: nat, b: nat): nat { if a < b then b else a }

  /** `str.ljust`: pad on the right with spaces up to width `w`; never truncate. */
  function LJust(s: string, w: nat): (r: string)
    ensures |r| == Max(|s|, w)
    ensures r[..|s|] == s
    ensures forall i :: |s| <= i < |r| ==> r[i] == ' '
  {
    if |s| < w then s + seq(w - |s|, _ => ' ') else s
  }

  /** `sep.join(parts)`. */
  function Join(sep: string, parts: seq<string>): string
    decreases |parts|
  {
    if |parts| == 0 then ""
    else if |parts| == 1 then parts[0]
    else parts[0] + sep + Join(sep, parts[1..])
  }

  /**
    Joining part sequences of the same shape with separators of the same
    length gives strings of the same length.
   */
  lemma {:induction false} JoinSameLength(sepA: string, sepB: string, a: seq<string>, b: seq<string>)
    requires |sepA| == |sepB| && |a| == |b|
    requires forall i :: 0 <= i < |a| ==> |a[i]| == |b[i]|
    ensures |Join(sepA, a)| == |Join(sepB, b)|
    decreases |a|
  {
    if |a| > 1 {
      JoinSameLength(sepA, sepB, a[1..], b[1..]);
    }
  }

  // ----- Column widths -----

  /** The width row `row` asks of column `c`: its cell's rendering, or nothing if it has no such cell. */
  function CellWidth(row: seq<Cell>, c: nat): nat
  {
    if c < |row| then |Render(row[c])| else 0
  }

  /** The width of column `c`: the widest of its header and its cells. */
  function ColumnWidth(header: string, rows: seq<seq<Cell>>, c: nat): nat
    decreases |rows|
  {
    if |rows| == 0 then |header|
    else Max(ColumnWidth(header, rows[..|rows| - 1], c), CellWidth(rows[|rows| - 1], c))
  }

  /** A column's width bounds its header and every cell, and is the width of one of them. */
  lemma {:induction false} ColumnWidthSpec(header: string, rows: seq<seq<Cell>>, c: nat)
    ensures ColumnWidth(header, rows, c) >= |header|
    ensures forall k :: 0 <= k < |rows| ==> ColumnWidth(header, rows, c) >= CellWidth(rows[k], c)
    ensures ColumnWidth(header, rows, c) == |header| ||
      exists k :: 0 <= k < |rows| && ColumnWidth(header, rows, c) == CellWidth(rows[k], c)
    decreases |rows|
  {
    if |rows| > 0 {
      var init := rows[..|rows| - 1];
      ColumnWidthSpec(header, init, c);
      forall k | 0 <= k < |rows| - 1 ensures rows[k] == init[k] { }
      if ColumnWidth(header, rows, c) != |header| && ColumnWidth(header, rows, c) != CellWidth(rows[|rows| - 1], c) {
        var k :| 0 <= k < |init| && ColumnWidth(header, init, c) == CellWidth(init[k], c);
        assert rows[k] == init[k];
      }
    }
  }

  function Widths(headers: seq<string>, rows: seq<seq<Cell>>): (w: seq<nat>)
    ensures |w| == |headers|
  {
    seq(|headers|, c requires 0 <= c < |headers| => ColumnWidth(headers[c], rows, c))
  }

  /** No row has more cells than there are headers. */
  predicate Fits(headers: seq<string>, rows: seq<seq<Cell>>)
  {
    forall k :: 0 <= k < |rows| ==> |rows[k]| <= |headers|
  }

  /** The first row with more cells than there are headers. */
  function FirstTooLong(rows: seq<seq<Cell>>, n: nat): (k: nat)
    requires exists k :: 0 <= k < |rows| && |rows[k]| > n
    ensures k < |rows| && |rows[k]| > n
    ensures forall j :: 0 <= j < k ==> |rows[j]| <= n
    decreases |rows|
  {
    if |rows[0]| > n then 0
    else
      assert exists k :: 0 <= k < |rows[1..]| && |rows[1..][k]| > n by {
        var k :| 0 <= k < |rows| && |rows[k]| > n;
        assert rows[1..][k - 1] == rows[k];
      }
      1 + FirstTooLong(rows[1..], n)
  }

  /**
    The width computation of the table printer: start from the header
    lengths and widen each column over the cells, row by row. A row longer
    than the headers stops it with an index error.
   */
  method ColumnWidths(headers: seq<string>, rows: seq<seq<Cell>>) returns (r: Result<seq<nat>, TableError>)
    ensures Fits(headers, rows) ==> r == Success(Widths(headers, rows))
    ensures !Fits(headers, rows) ==> r == Failure(RowTooLong(FirstTooLong(rows, |headers|)))
  {
    var w := seq(|headers|, c requires 0 <= c < |headers| => |headers[c]|);
    var k := 0;
    while k < |rows|
      invariant 0 <= k <= |rows| && |w| == |headers|
      invariant forall j :: 0 <= j < k ==> |rows[j]| <= |headers|
      invariant forall c :: 0 <= c < |headers| ==> w[c] == ColumnWidth(headers[c], rows[..k], c)
    {
      var row := rows[k];
      if |row| > |headers| {
        return Failure(RowTooLong(k));
      }
      assert rows[..k + 1][..k] == rows[..k];
      var i := 0;
      while i < |row|
        invariant 0 <= i <= |row| && |w| == |headers|
        invariant forall c :: 0 <= c < |headers| ==>
          w[c] == if c < i then ColumnWidth(headers[c], rows[..k + 1], c) else ColumnWidth(headers[c], rows[..k], c)
      {
        w := w[i := Max(w[i], |Render(row[i])|)];
        i := i + 1;
      }
      forall c | |row| <= c < |headers| ensures w[c] == ColumnWidth(headers[c], rows[..k + 1], c) { }
      k := k + 1;
    }
    assert rows[..k] == rows;
    assert w == Widths(headers, rows);
    return Success(w);
  }

  // ----- The printed table -----

  function HeaderLine(headers: seq<string>, w: seq<nat>): string
    requires |headers| == |w|
  {
    Join(" | ", seq(|headers|, c requires 0 <= c < |headers| => LJust(headers[c], w[c])))
  }

  function Rule(w: seq<nat>): string
  {
    Join("-+-", seq(|w|, c requires 0 <= c < |w| => seq(w[c], _ => '-')))
  }

  function RowLine(row: seq<Cell>, w: seq<nat>): string
    requires |row| <= |w|
  {
    Join(" | ", seq(|row|, c requires 0 <= c < |row| => LJust(Render(row[c]), w[c])))
  }

  /**
    The lines the table printer writes: a notice when there are no rows;
    otherwise the header line, the rule and one line per row. The printer
    of the application writes an empty line after them.
   */
  function PrintTable(headers: seq<string>, rows: seq<seq<Cell>>): Result<seq<string>, TableError>
  {
    if |rows| == 0 then
      Success(["Nenhum resultado encontrado."])
    else if !Fits(headers, rows) then
      Failure(RowTooLong(FirstTooLong(rows, |headers|)))
    else
      var w := Widths(headers, rows);
      Success([HeaderLine(headers, w), Rule(w)] + seq(|rows|, k requires 0 <= k < |rows| => RowLine(rows[k], w)))
  }

  /**
    The printer's outcome: with no rows it prints only the notice, whatever
    the headers; otherwise it stops exactly when some row has more cells
    than there are headers, at the first such row, and else prints the
    header line, the rule and one line per row.
   */
  lemma PrintTableOutcome(headers: seq<string>, rows: seq<seq<Cell>>)
    ensures |rows| == 0 ==> PrintTable(headers, rows) == Success(["Nenhum resultado encontrado."])
    ensures |rows| > 0 ==>
      (PrintTable(headers, rows).Failure? <==> exists k :: 0 <= k < |rows| && |rows[k]| > |headers|)
    ensures PrintTable(headers, rows).Failure? ==>
      var k := PrintTable(headers, rows).error.row;
      k < |rows| && |rows[k]| > |headers| && forall j :: 0 <= j < k ==> |rows[j]| <= |headers|
    ensures |rows| > 0 && PrintTable(headers, rows).Success? ==> |PrintTable(headers, rows).value| == |rows| + 2
  {
  }

  /**
    The table is aligned: the header line, the rule and the line of every
    row with a cell for each header all have the same length, and every
    cell starts with its rendering.
   */
  lemma TableAligned(headers: seq<string>, rows: seq<seq<Cell>>)
    requires |rows| > 0 && Fits(headers, rows)
    ensures PrintTable(headers, rows).Success?
    ensures var lines := PrintTable(headers, rows).value;
      && |lines| == |rows| + 2
      && |lines[1]| == |lines[0]|
      && forall k :: 0 <= k < |rows| && |rows[k]| == |headers| ==> |lines[k + 2]| == |lines[0]|
  {
    var w := Widths(headers, rows);
    var lines := PrintTable(headers, rows).value;
    var hs := seq(|headers|, c requires 0 <= c < |headers| => LJust(headers[c], w[c]));
    var dashes := seq(|w|, c requires 0 <= c < |w| => seq(w[c], _ => '-'));
    forall c | 0 <= c < |headers| ensures |hs[c]| == w[c] {
      ColumnWidthSpec(headers[c], rows, c);
    }
    JoinSameLength(" | ", "-+-", hs, dashes);
    forall k | 0 <= k < |rows| && |rows[k]| == |headers| ensures |lines[k + 2]| == |lines[0]| {
      var cs := seq(|rows[k]|, c requires 0 <= c < |rows[k]| => LJust(Render(rows[k][c]), w[c]));
      forall c | 0 <= c < |headers| ensures |cs[c]| == w[c] {
        ColumnWidthSpec(headers[c], rows, c);
        assert CellWidth(rows[k], c) == |Render(rows[k][c])|;
      }
      JoinSameLength(" | ", " | ", cs, hs);
    }
  }
}
