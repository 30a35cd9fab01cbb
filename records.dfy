/**
 * Records as the CSV reader hands them to the statistics engine: an ordered
 * mapping from column name to a raw cell, where a cell is a string or absent.
 * The order of the fields is the insertion order of the dictionary, so the
 * header order of a dataset is the order of its first record's fields.
 */
module Records {

  datatype Option<T> = None | Some(value: T) {
    function GetOr(default: T): T {
      match this
      case Some(v) => v
      case None => default
    }
  }

  /** One (column name, raw cell) item of a record; `None` is an absent cell. */
  datatype Field = Field(name: string, value: Option<string>)

  /** A record is the item list of a dictionary, in insertion order. */
  type Record = seq<Field>

  /** The column names of a record, in insertion order (`row.keys()`). */
  function Headers(row: Record): (names: seq<string>)
    ensures |names| == |row|
    ensures forall i :: 0 <= i < |row| ==> names[i] == row[i].name
  {
    seq(|row|, i requires 0 <= i < |row| => row[i].name)
  }

  /** `row.get(column)`: the cell of the first field with that name, or `None`. */
  function Get(row: Record, column: string): (v: Option<string>)
    ensures column !in Headers(row) ==> v == None
    ensures v.Some? ==> exists i :: 0 <= i < |row| && row[i] == Field(column, v)
  {
    if row == [] then None
    else if row[0].name == column then row[0].value
    else Get(row[1..], column)
  }

  /** `row.get` finds a header's cell: for a column that is a header it returns
      the value of the first field with that name, and for any other column it
      returns `None`. */
  lemma {:induction false} GetFindsFirstField(row: Record, column: string)
    ensures column !in Headers(row) ==> Get(row, column) == None
    ensures column in Headers(row) ==>
      exists i :: 0 <= i < |row| && row[i] == Field(column, Get(row, column))
        && forall j :: 0 <= j < i ==> row[j].name != column
  {
    if row != [] && row[0].name != column && column in Headers(row) {
      var i :| 0 <= i < |row| && Headers(row)[i] == column;
      assert Headers(row[1..])[i - 1] == column;
      GetFindsFirstField(row[1..], column);
      var k :| 0 <= k < |row| - 1 && row[1..][k] == Field(column, Get(row[1..], column))
        && forall j :: 0 <= j < k ==> row[1..][j].name != column;
      assert row[k + 1] == Field(column, Get(row, column));
    } else if row != [] && row[0].name == column {
      assert row[0] == Field(column, Get(row, column));
    }
  }

  /** The missing-value rule of the summarisers and the classifier: a cell is
      missing when it is absent, the empty string or the literal "NA". */
  predicate IsMissing(v: Option<string>) {
    v == None || v == Some("") || v == Some("NA")
  }

  /** Python truthiness of a cell: present and not the empty string. */
  predicate Truthy(v: Option<string>) {
    v.Some? && v.value != ""
  }
}
