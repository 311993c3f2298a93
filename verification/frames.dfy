/** The slice of pandas the core touches: a frame is an ordered list of column names plus rows,
    each row mapping column names to cells. */
module Frames {

  /** One cell. `Null` is what `isnull` reports (None or NaN); `Inf` is a signed infinity. */
  datatype Cell = Num(v: real) | Text(s: string) | Null | Inf(positive: bool)

  type Row = map<string, Cell>

  datatype Frame = Frame(columns: seq<string>, rows: seq<Row>)

  /** The exceptions pandas raises here: a missing column, or arithmetic or comparison on text. */
  datatype FrameError = KeyError(columns: seq<string>) | TypeError(column: string)

  /** A row that lacks a column reads as NaN, as it does after pandas aligns the frame. */
  function Get(r: Row, c: string): Cell
  {
    if c in r then r[c] else Null
  }

  /** `df[c]` as a list of cells, one per row. */
  function Column(f: Frame, c: string): (cs: seq<Cell>)
    ensures |cs| == |f.rows|
    ensures forall i :: 0 <= i < |cs| ==> cs[i] == Get(f.rows[i], c)
  {
    seq(|f.rows|, i requires 0 <= i < |f.rows| => Get(f.rows[i], c))
  }

  predicate AnyText(cs: seq<Cell>)
  {
    exists i :: 0 <= i < |cs| && cs[i].Text?
  }

  /** `x + 1` on a non-text cell. */
  function AddOne(c: Cell): Cell
  {
    match c
    case Num(v) => Num(v + 1.0)
    case _ => c
  }

  /** Division `a / b` on non-text cells, with numpy's special cases: x/0 is a signed infinity,
      0/0 and inf/inf are NaN, anything with NaN is NaN, finite/inf is zero. Finite quotients are
      exact reals: float64 overflow and rounding are not modelled. */
  function Divide(a: Cell, b: Cell): Cell
  {
    if a.Null? || b.Null? || a.Text? || b.Text? then Null
    else match (a, b)
      case (Num(x), Num(y)) =>
        if y != 0.0 then Num(x / y)
        else if x == 0.0 then Null
        else Inf(x > 0.0)
      case (Num(_), Inf(_)) => Num(0.0)
      case (Inf(p), Num(y)) => if y < 0.0 then Inf(!p) else Inf(p)
      case (Inf(_), Inf(_)) => Null
  }

  /** Dividing finite numbers by a non-zero number is ordinary division. */
  lemma DivideFinite(x: real, y: real)
    requires y != 0.0
    ensures Divide(Num(x), Num(y)) == Num(x / y)
  {
  }

  /** `x > t` on a non-text cell: NaN compares false, infinities compare by sign. */
  predicate Above(c: Cell, t: real)
  {
    match c
    case Num(v) => v > t
    case Inf(p) => p
    case _ => false
  }

  /** `x <= t` on a non-text cell. */
  predicate AtMost(c: Cell, t: real)
  {
    match c
    case Num(v) => v <= t
    case Inf(p) => !p
    case _ => false
  }

  /** `df[name] = values`: replaces the column where it exists, otherwise appends it. */
  function Assign(f: Frame, name: string, values: seq<Cell>): (r: Frame)
    requires |values| == |f.rows|
    ensures |r.rows| == |f.rows|
    ensures name in r.columns
    ensures forall c :: c in r.columns <==> c in f.columns || c == name
    ensures forall i :: 0 <= i < |r.rows| ==> r.rows[i].Keys == f.rows[i].Keys + {name}
    ensures forall i :: 0 <= i < |r.rows| ==> Get(r.rows[i], name) == values[i]
    ensures forall i, c :: 0 <= i < |r.rows| && c != name ==> Get(r.rows[i], c) == Get(f.rows[i], c)
    ensures forall i, c :: 0 <= i < |r.rows| && c != name && c in f.rows[i] ==> r.rows[i][c] == f.rows[i][c]
  {
    Frame(
      if name in f.columns then f.columns else f.columns + [name],
      seq(|f.rows|, i requires 0 <= i < |f.rows| => f.rows[i][name := values[i]]))
  }

  /** The rows whose cell in column `c` satisfies `keep`, in order: boolean indexing `df[mask]`. */
  function SelectRows(rows: seq<Row>, c: string, keep: Cell -> bool): (r: seq<Row>)
    ensures |r| <= |rows|
    ensures forall i :: 0 <= i < |r| ==> keep(Get(r[i], c))
  {
    if |rows| == 0 then []
    else (if keep(Get(rows[0], c)) then [rows[0]] else []) + SelectRows(rows[1..], c, keep)
  }

  /** The number of rows whose cell in column `c` satisfies `keep`. */
  function CountRows(rows: seq<Row>, c: string, keep: Cell -> bool): nat
  {
    if |rows| == 0 then 0
    else (if keep(Get(rows[0], c)) then 1 else 0) + CountRows(rows[1..], c, keep)
  }

  /** `[c for c in names if c not in df.columns]`. */
  function MissingOf(f: Frame, names: seq<string>): (r: seq<string>)
    ensures forall c :: c in r <==> c in names && c !in f.columns
    ensures |r| <= |names|
  {
    if |names| == 0 then []
    else (if names[0] in f.columns then [] else [names[0]]) + MissingOf(f, names[1..])
  }

  /** The missing names depend only on which of them each frame has. */
  lemma {:induction false} MissingOfSame(f: Frame, g: Frame, names: seq<string>)
    requires forall c :: c in names ==> (c in f.columns <==> c in g.columns)
    ensures MissingOf(f, names) == MissingOf(g, names)
    decreases |names|
  {
    if |names| > 0 {
      MissingOfSame(f, g, names[1..]);
    }
  }
}
