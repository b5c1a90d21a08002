/** The cleaning script as one pipeline over a table: header normalisation,
    gender lower-casing, the `full_name` column, and the date-of-birth
    rewrite, in source order, each step failing where pandas would raise. */
module Cleaning {
  import opened Text
  import opened Series
  import opened Headers
  import opened Fields
  import opened Frames

  const Gender := "gender"
  const FirstName := "first_name"
  const LastName := "last_name"
  const FullNameLabel := "full_name"
  const DateOfBirth := "date_of_birth"

  /** Rename, lower-case and underscore every header; the columns and rows
      are kept as they are. */
  function NormalizeFrameHeaders(f: Frame): (g: Frame)
    requires f.Valid()
    ensures g.Valid() && g.rows == f.rows && g.columns == f.columns
    ensures |g.headers| == |f.headers|
    ensures forall k :: 0 <= k < |f.headers| ==> g.headers[k] == NormalizeHeader(f.headers[k])
    ensures forall k :: 0 <= k < |f.headers| ==> ' ' !in g.headers[k] && NoUpper(g.headers[k])
  {
    WithHeaders(f, NormalizeHeaders(f.headers))
  }

  /** `df['gender'] = df['gender'].str.lower()`: fails unless exactly one
      column is labelled `gender`; otherwise that column is lower-cased value
      by value and nothing else changes. */
  function LowerGender(f: Frame): (r: Result<Frame>)
    requires f.Valid()
    ensures r.Ok? <==> Unique(f.headers, Gender)
    ensures r.Err? ==> r.error == (if Gender in f.headers then DuplicateColumn(Gender) else MissingColumn(Gender))
    ensures r.Ok? ==> r.value.Valid() && r.value.rows == f.rows && r.value.headers == f.headers
    ensures r.Ok? ==> forall k :: 0 <= k < |f.headers| && f.headers[k] != Gender ==> r.value.columns[k] == f.columns[k]
    ensures r.Ok? ==> forall k, i :: 0 <= k < |f.headers| && f.headers[k] == Gender && 0 <= i < f.rows ==>
              LowerCaseOf(f.columns[k][i], r.value.columns[k][i])
  {
    var col :- GetColumn(f, Gender);
    Ok(SetColumn(f, Gender, StrLower(col)))
  }

  /** The `full_name` list comprehension and its assignment. The loop runs
      over the rows of `first_name`, so that label must exist; with no rows
      nothing else is read and the new column is empty; otherwise both name
      columns must be unique. Row `i` of `full_name` is row `i` of
      `first_name`, a space, and row `i` of `last_name`; `full_name` replaces
      an existing column of that label or is added at the end. */
  function AddFullName(f: Frame): (r: Result<Frame>)
    requires f.Valid()
    ensures r.Ok? <==> FirstName in f.headers && (f.rows == 0 || (Unique(f.headers, FirstName) && Unique(f.headers, LastName)))
    ensures r.Err? ==> r.error.name in {FirstName, LastName}
    ensures r.Ok? ==> r.value.Valid() && r.value.rows == f.rows
    ensures r.Ok? ==> r.value.headers == if FullNameLabel in f.headers then f.headers else f.headers + [FullNameLabel]
    ensures r.Ok? ==> forall k :: 0 <= k < |f.headers| && f.headers[k] != FullNameLabel ==> r.value.columns[k] == f.columns[k]
    ensures r.Ok? && f.rows > 0 ==> LastName in f.headers
    ensures r.Ok? && f.rows > 0 ==>
              forall k, i :: 0 <= k < |r.value.headers| && r.value.headers[k] == FullNameLabel && 0 <= i < f.rows ==>
                r.value.columns[k][i] == ColumnOf(f, FirstName)[i] + " " + ColumnOf(f, LastName)[i]
  {
    if FirstName !in f.headers then Err(MissingColumn(FirstName))
    else if f.rows == 0 then Ok(SetColumn(f, FullNameLabel, []))
    else
      var first :- GetColumn(f, FirstName);
      var last :- GetColumn(f, LastName);
      Ok(SetColumn(f, FullNameLabel, FullNames(first, last)))
  }

  /** The date-of-birth loop. Its length is taken from `date_of_birth`, so
      that label must exist; with no rows the loop body never runs; otherwise
      the label must be unique. Each row of that column is replaced by its
      rewrite; the headers, the row count and every other column stay. */
  function ReformatDob(f: Frame): (r: Result<Frame>)
    requires f.Valid()
    ensures r.Ok? <==> DateOfBirth in f.headers && (f.rows == 0 || Unique(f.headers, DateOfBirth))
    ensures r.Err? ==> r.error == (if DateOfBirth in f.headers then DuplicateColumn(DateOfBirth) else MissingColumn(DateOfBirth))
    ensures r.Ok? ==> r.value.Valid() && r.value.rows == f.rows && r.value.headers == f.headers
    ensures r.Ok? ==> forall k :: 0 <= k < |f.headers| && f.headers[k] != DateOfBirth ==> r.value.columns[k] == f.columns[k]
    ensures r.Ok? ==> forall k, i :: 0 <= k < |f.headers| && f.headers[k] == DateOfBirth && 0 <= i < f.rows ==>
              r.value.columns[k][i] == ReformatDate(f.columns[k][i])
  {
    if DateOfBirth !in f.headers then Err(MissingColumn(DateOfBirth))
    else if f.rows == 0 then Ok(f)
    else
      var col :- GetColumn(f, DateOfBirth);
      Ok(SetColumn(f, DateOfBirth, ReformatDates(col)))
  }

  /** The whole script between reading and writing the file. */
  function Clean(f: Frame): (r: Result<Frame>)
    requires f.Valid()
    ensures r.Ok? ==> r.value.Valid() && r.value.rows == f.rows
  {
    var f1 := NormalizeFrameHeaders(f);
    var f2 :- LowerGender(f1);
    var f3 :- AddFullName(f2);
    ReformatDob(f3)
  }

  /** The headers the table has after the rename, lower-case and underscore
      steps. */
  function CleanHeaders(f: Frame): seq<string> {
    NormalizeHeaders(f.headers)
  }

  /** When the script gets through: `gender` labels exactly one column after
      header normalisation, `first_name` and `date_of_birth` label at least
      one, and, if there are rows, `first_name`, `last_name` and
      `date_of_birth` each label exactly one. */
  predicate Cleanable(hs: seq<string>, rows: nat) {
    && Unique(hs, Gender)
    && FirstName in hs
    && DateOfBirth in hs
    && (rows > 0 ==> Unique(hs, FirstName) && Unique(hs, LastName) && Unique(hs, DateOfBirth))
  }

  /** The pipeline succeeds exactly on tables whose normalised headers are
      cleanable, and then its headers are the normalised ones, with
      `full_name` added at the end unless already there. */
  lemma {:induction false} CleanSucceedsIff(f: Frame)
    requires f.Valid()
    ensures Clean(f).Ok? <==> Cleanable(CleanHeaders(f), f.rows)
    ensures Clean(f).Ok? ==>
              Clean(f).value.headers ==
                if FullNameLabel in CleanHeaders(f) then CleanHeaders(f) else CleanHeaders(f) + [FullNameLabel]
  {
    var h := CleanHeaders(f);
    var f1 := NormalizeFrameHeaders(f);
    var g := LowerGender(f1);
    if g.Ok? {
      var f2 := g.value;
      var a := AddFullName(f2);
      if a.Ok? {
        var f3 := a.value;
        if FullNameLabel !in h {
          IndexOfAppend(h, FullNameLabel, DateOfBirth);
        }
      }
    }
  }

  /** The tables between the steps of a successful run. */
  lemma CleanStages(f: Frame) returns (f1: Frame, f2: Frame, f3: Frame)
    requires f.Valid() && Clean(f).Ok?
    ensures f1 == NormalizeFrameHeaders(f) && f1.Valid()
    ensures LowerGender(f1).Ok? && f2 == LowerGender(f1).value
    ensures AddFullName(f2).Ok? && f3 == AddFullName(f2).value
    ensures ReformatDob(f3).Ok? && Clean(f).value == ReformatDob(f3).value
  {
    f1 := NormalizeFrameHeaders(f);
    f2 := LowerGender(f1).value;
    f3 := AddFullName(f2).value;
  }

  /** A cleaned table keeps, as read, every column whose normalised label is
      none of `gender`, `full_name` and `date_of_birth`. */
  lemma CleanKeepsOtherColumns(f: Frame, k: nat)
    requires f.Valid() && k < |f.headers|
    ensures Clean(f).Ok? && CleanHeaders(f)[k] !in {Gender, FullNameLabel, DateOfBirth} ==>
              k < |Clean(f).value.columns| && Clean(f).value.columns[k] == f.columns[k]
  {
    if Clean(f).Ok? {
      var f1, f2, f3 := CleanStages(f);
    }
  }

  /** In a cleaned table the `gender` column is the input's, lower-cased value
      by value. */
  lemma CleanLowersGender(f: Frame, k: nat, i: nat)
    requires f.Valid() && k < |f.headers| && i < f.rows
    ensures Clean(f).Ok? && CleanHeaders(f)[k] == Gender ==>
              && k < |Clean(f).value.columns| && i < |Clean(f).value.columns[k]|
              && LowerCaseOf(f.columns[k][i], Clean(f).value.columns[k][i])
  {
    if Clean(f).Ok? {
      var f1, f2, f3 := CleanStages(f);
    }
  }

  /** In a cleaned table each `date_of_birth` value is the rewrite of the
      input's value in the same row. */
  lemma CleanReformatsDates(f: Frame, k: nat, i: nat)
    requires f.Valid() && k < |f.headers| && i < f.rows
    ensures Clean(f).Ok? && CleanHeaders(f)[k] == DateOfBirth ==>
              && k < |Clean(f).value.columns| && i < |Clean(f).value.columns[k]|
              && Clean(f).value.columns[k][i] == ReformatDate(f.columns[k][i])
  {
    if Clean(f).Ok? {
      var f1, f2, f3 := CleanStages(f);
    }
  }

  /** In a cleaned table row `i` of `full_name` is row `i` of the input's
      `first_name`, a space, and row `i` of its `last_name`. */
  lemma CleanBuildsFullNames(f: Frame, k: nat, i: nat)
    requires f.Valid() && i < f.rows
    ensures Clean(f).Ok? && k < |Clean(f).value.headers| && Clean(f).value.headers[k] == FullNameLabel ==>
              && Unique(CleanHeaders(f), FirstName) && Unique(CleanHeaders(f), LastName)
              && k < |Clean(f).value.columns| && i < |Clean(f).value.columns[k]|
              && Clean(f).value.columns[k][i] ==
                   f.columns[IndexOf(CleanHeaders(f), FirstName)][i] + " " + f.columns[IndexOf(CleanHeaders(f), LastName)][i]
  {
    if Clean(f).Ok? {
      var f1, f2, f3 := CleanStages(f);
      assert ColumnOf(f2, FirstName) == ColumnOf(f1, FirstName);
      assert ColumnOf(f2, LastName) == ColumnOf(f1, LastName);
    }
  }
}
