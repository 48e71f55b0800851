/**
 * The sample relation the validators run on: a pandas DataFrame built from a list of
 * records. A record is a dict from column name to cell value; a cell is a string, a number
 * or missing (`None`/`NaN`, which pandas treats alike).
 */
module SampleData {
  import opened Lists

  datatype Value = Null | Str(s: string) | Num(n: real)

  /** One record: the columns it has a value for. */
  type Row = map<string, Value>

  /** A DataFrame: its column labels and its rows. A frame with columns and no rows exists. */
  datatype Frame = Frame(columns: set<string>, rows: seq<Row>)

  /** `df[column]` at one row: a column the record lacks reads as missing. */
  function Cell(row: Row, column: string): (v: Value)
    ensures column !in row ==> v == Null
  {
    if column in row then row[column] else Null
  }

  /** The union of the keys of `records`. */
  function ColumnsOf(records: seq<Row>): (cs: set<string>)
    ensures forall c :: c in cs <==> exists k :: 0 <= k < |records| && c in records[k]
  {
    if records == [] then {}
    else
      var init := records[..|records| - 1];
      var cs := ColumnsOf(init) + records[|records| - 1].Keys;
      assert forall c :: c in cs <==> exists k :: 0 <= k < |records| && c in records[k] by {
        forall c ensures c in cs <==> exists k :: 0 <= k < |records| && c in records[k] {
          if c in ColumnsOf(init) {
            var k :| 0 <= k < |init| && c in init[k];
            assert records[k] == init[k];
          }
          if exists k :: 0 <= k < |records| && c in records[k] {
            var k :| 0 <= k < |records| && c in records[k];
            if k < |init| {
              assert init[k] == records[k];
            }
          }
        }
      }
      cs
  }

  /** `pd.DataFrame(records)`: one row per record, one column per key seen in any record. */
  function FrameOf(records: seq<Row>): (f: Frame)
    ensures f.rows == records
    ensures forall c :: c in f.columns <==> exists k :: 0 <= k < |records| && c in records[k]
  {
    Frame(ColumnsOf(records), records)
  }

  /** A row of `f` as `to_dict('records')` gives it: every column of the frame, missing
      cells included. */
  function Record(f: Frame, row: Row): (r: Row)
    ensures r.Keys == f.columns
    ensures forall c :: c in f.columns ==> r[c] == Cell(row, c)
  {
    map c | c in f.columns :: Cell(row, c)
  }

  /** `df.head(n).to_dict('records')`. */
  function HeadRecords(f: Frame, n: nat): (rs: seq<Row>)
    ensures |rs| <= n && |rs| <= |f.rows|
    ensures |rs| == if n < |f.rows| then n else |f.rows|
    ensures forall k :: 0 <= k < |rs| ==> rs[k] == Record(f, f.rows[k])
  {
    var head := Take(f.rows, n);
    seq(|head|, k requires 0 <= k < |head| => Record(f, head[k]))
  }

  /** `df[mask]`: the rows where `mask` holds, in order, with the same columns. */
  function Select(f: Frame, mask: Row -> bool): (g: Frame)
    ensures g.columns == f.columns
    ensures g.rows == Filter(f.rows, mask)
  {
    Frame(f.columns, Filter(f.rows, mask))
  }

  /** `pd.DataFrame()`: no columns and no rows. */
  const EmptyFrame := Frame({}, [])
}
