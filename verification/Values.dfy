/** Scalar values, rows and primary keys (crates/adb-core/src/types.rs, crates/adb-storage/src/rows.rs).

    Floating point numbers are idealised as reals and integers are unbounded; operations whose
    width matters (saturating sums, LSNs, frame lengths) say so where they are defined. */
module Values {

  datatype Option<+T> = None | Some(value: T)

  datatype Value =
    | Null
    | Bool(b: bool)
    | Int(i: int)
    | Float(f: real)
    | Str(s: string)
    | Timestamp(micros: int)
    | Date(days: int)

  /** A row, by column name. */
  type Row = map<string, Value>

  /** A primary-key tuple, in key column order. */
  type RowKey = seq<Value>

  /** A column the row lacks reads as NULL, as `project_with_backfill` arranges. */
  function Cell(row: Row, column: string): Value {
    if column in row then row[column] else Null
  }

  function KeyAt(pk: seq<string>, row: Row): RowKey {
    if pk == [] then [] else [Cell(row, pk[0])] + KeyAt(pk[1..], row)
  }

  function Max(a: nat, b: nat): nat { if a < b then b else a }

  function Min(a: nat, b: nat): nat { if a < b then a else b }

  // ---------------------------------------------------------------- sequences

  lemma Associate<T>(a: seq<T>, b: seq<T>, c: seq<T>)
    ensures a + b + c == a + (b + c)
  {
  }

  lemma AppendNext<T>(a: seq<T>, b: seq<T>, i: nat)
    requires i < |b|
    ensures a + b[..i] + [b[i]] == a + b[..i + 1]
  {
  }

  lemma NothingAdded<T>(a: seq<T>, b: seq<T>)
    ensures b == [] ==> a + b == a
    ensures a == [] ==> a + b == b
  {
  }
}
