/** The table the script works on: headers in order, one column of string
    values per header, every column `rows` long. Column lookup and column
    assignment follow pandas' behaviour for absent and repeated labels. */
module Frames {
  import opened Text

  datatype Frame = Frame(headers: seq<string>, columns: seq<seq<string>>, rows: nat) {
    /** One column per header, each with one value per row. */
    predicate Valid() {
      && |columns| == |headers|
      && forall k :: 0 <= k < |columns| ==> |columns[k]| == rows
    }
  }

  /** `df[name]` fails with a KeyError when no column has that label; when
      several do, it yields a table rather than a column, and the script's
      next step (`.str` or a row index) fails on it. */
  datatype FrameError = MissingColumn(name: string) | DuplicateColumn(name: string)

  datatype Result<T> = Ok(value: T) | Err(error: FrameError) {
    predicate IsFailure() {
      Err?
    }

    function PropagateFailure<U>(): Result<U>
      requires Err?
    {
      Err(error)
    }

    function Extract(): T
      requires Ok?
    {
      value
    }
  }

  /** Exactly one header is `name`. */
  predicate Unique(hs: seq<string>, name: string) {
    var k := IndexOf(hs, name);
    k < |hs| && name !in hs[k + 1..]
  }

  /** A unique label sits at its first position and nowhere else. */
  lemma UniqueAt(hs: seq<string>, name: string, j: nat)
    requires Unique(hs, name) && j < |hs| && hs[j] == name
    ensures j == IndexOf(hs, name)
  {
    var k := IndexOf(hs, name);
    assert forall i :: 0 <= i < k ==> hs[..k][i] == hs[i];
    assert forall i :: k < i < |hs| ==> hs[k + 1..][i - k - 1] == hs[i];
  }

  /** The column under the first header `name`. */
  function ColumnOf(f: Frame, name: string): seq<string>
    requires f.Valid() && name in f.headers
  {
    f.columns[IndexOf(f.headers, name)]
  }

  /** Adding a header other than `name` at the end leaves the position of
      `name`, and whether it is unique, as they were. */
  lemma {:induction false} IndexOfAppend(hs: seq<string>, x: string, name: string)
    requires x != name
    ensures name in hs ==> IndexOf(hs + [x], name) == IndexOf(hs, name)
    ensures Unique(hs + [x], name) <==> Unique(hs, name)
  {
    if hs == [] {
    } else {
      assert (hs + [x])[1..] == hs[1..] + [x];
      if hs[0] != name {
        IndexOfAppend(hs[1..], x, name);
      }
      var k := IndexOf(hs, name);
      if k < |hs| {
        assert (hs + [x])[k + 1..] == hs[k + 1..] + [x];
      }
    }
  }

  /** `df[name]` used as a column: present exactly once, or an error naming
      the label; the column returned is the one under that label. */
  function GetColumn(f: Frame, name: string): (r: Result<seq<string>>)
    requires f.Valid()
    ensures r.Ok? <==> Unique(f.headers, name)
    ensures r.Ok? ==> |r.value| == f.rows
    ensures r.Ok? ==> forall k :: 0 <= k < |f.headers| && f.headers[k] == name ==> r.value == f.columns[k]
    ensures r.Err? ==> r.error.name == name
    ensures r.Err? ==> (r.error.MissingColumn? <==> name !in f.headers)
  {
    var k := IndexOf(f.headers, name);
    if k == |f.headers| then Err(MissingColumn(name))
    else if name in f.headers[k + 1..] then Err(DuplicateColumn(name))
    else
      assert forall j :: 0 <= j < |f.headers| && f.headers[j] == name ==> j == k by {
        forall j | 0 <= j < |f.headers| && f.headers[j] == name
          ensures j == k
        {
          UniqueAt(f.headers, name, j);
        }
      }
      Ok(ColumnOf(f, name))
  }

  /** `df[name] = values`: every column labelled `name` gets the values (a
      repeated label receives them in each of its columns); with no such
      column a new one is added at the end. Other columns and the row count
      do not change. */
  function SetColumn(f: Frame, name: string, values: seq<string>): (g: Frame)
    requires f.Valid() && |values| == f.rows
    ensures g.Valid() && g.rows == f.rows
    ensures name in f.headers ==> g.headers == f.headers
    ensures name !in f.headers ==> g.headers == f.headers + [name] && g.columns[|f.headers|] == values
    ensures forall k :: 0 <= k < |f.headers| && f.headers[k] == name ==> g.columns[k] == values
    ensures forall k :: 0 <= k < |f.headers| && f.headers[k] != name ==> g.columns[k] == f.columns[k]
  {
    if name in f.headers then
      Frame(f.headers,
            seq(|f.columns|, k requires 0 <= k < |f.columns| =>
              if f.headers[k] == name then values else f.columns[k]),
            f.rows)
    else
      Frame(f.headers + [name], f.columns + [values], f.rows)
  }

  /** `df.columns = hs`: new labels, same columns. */
  function WithHeaders(f: Frame, hs: seq<string>): (g: Frame)
    requires f.Valid() && |hs| == |f.headers|
    ensures g.Valid() && g.headers == hs && g.columns == f.columns && g.rows == f.rows
  {
    f.(headers := hs)
  }
}
