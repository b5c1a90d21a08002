/** The per-value transforms of the cleaning script: the synthesised full
    name and the fixed-offset date-of-birth rewrite. Gender lower-casing is
    `Series.StrLower`. */
module Fields {
  import opened Text

  /** `first + ' ' + last`: one space between the two parts, nothing
      trimmed. */
  function FullName(first: string, last: string): (r: string)
    ensures |r| == |first| + 1 + |last|
    ensures r[..|first|] == first && r[|first|] == ' ' && r[|first| + 1..] == last
  {
    first + " " + last
  }

  /** Inverse of `FullName`: `str.partition(' ')`, splitting at the first
      space and dropping it; without a space the whole text is the first
      part. */
  function SplitAtSpace(s: string): (string, string) {
    var k := IndexOf(s, ' ');
    if k < |s| then (s[..k], s[k + 1..]) else (s, "")
  }

  /** A first name without a space is recovered exactly, and so is the last
      name, whatever it contains. */
  lemma FullNameSplits(first: string, last: string)
    requires ' ' !in first
    ensures SplitAtSpace(FullName(first, last)) == (first, last)
  {
    var r := FullName(first, last);
    var k := IndexOf(r, ' ');
    assert r[|first|] == ' ';
    assert forall j :: 0 <= j < |first| ==> r[j] == first[j] && r[j] != ' ';
    assert forall j :: 0 <= j < k ==> r[..k][j] == r[j];
    assert k == |first|;
  }

  /** The list comprehension building the `full_name` column: one full name
      per row, each made from that row's first and last name. */
  function FullNames(first: seq<string>, last: seq<string>): (r: seq<string>)
    requires |last| == |first|
    ensures |r| == |first|
    ensures forall i :: 0 <= i < |first| ==>
              |r[i]| == |first[i]| + 1 + |last[i]| && r[i] == first[i] + " " + last[i]
  {
    seq(|first|, i requires 0 <= i < |first| => FullName(first[i], last[i]))
  }

  /** Worked case: "Jane" and "Doe" give "Jane Doe". */
  lemma FullNameExample()
    ensures FullName("Jane", "Doe") == "Jane Doe"
  {
  }

  /** `s[5:7] + '/' + s[8:10] + '/' + s[0:4]` with Python slices: written
      for `yyyy-mm-dd` text, giving `mm/dd/yyyy`, and never failing on other
      text. The result has between 2 and 10 characters; from 10 characters
      on it is exactly 10 long with `/` at positions 2 and 5, holding the
      month, the day and the year of the input's fixed positions. */
  function ReformatDate(s: string): (r: string)
    ensures 2 <= |r| <= 10
    ensures |r| == 2 + SliceLength(|s|, 5, 7) + SliceLength(|s|, 8, 10) + SliceLength(|s|, 0, 4)
    ensures |s| >= 7 ==> r[2] == '/'
    ensures |s| >= 10 ==> |r| == 10 && r[5] == '/'
    ensures |s| >= 10 ==> r[..2] == s[5..7] && r[3..5] == s[8..10] && r[6..] == s[..4]
  {
    var r := Slice(s, 5, 7) + "/" + Slice(s, 8, 10) + "/" + Slice(s, 0, 4);
    assert |s| >= 10 ==>
      r[..2] == Slice(s, 5, 7) && r[3..5] == Slice(s, 8, 10) && r[6..] == Slice(s, 0, 4);
    r
  }

  /** Characters from position 10 on are discarded. */
  lemma ReformatDateIgnoresTail(s: string)
    requires |s| > 10
    ensures ReformatDate(s) == ReformatDate(s[..10])
  {
    SliceOfPrefix(s, 5, 7, 10);
    SliceOfPrefix(s, 8, 10, 10);
    SliceOfPrefix(s, 0, 4, 10);
  }

  /** Nothing is validated: whatever stands at the separator positions 4 and
      7 has no effect on the result. */
  lemma ReformatDateIgnoresSeparators(s: string, c: char, d: char)
    requires |s| >= 8
    ensures ReformatDate(s[4 := c][7 := d]) == ReformatDate(s)
  {
    var t := s[4 := c][7 := d];
    assert Slice(t, 5, 7) == Slice(s, 5, 7);
    assert Slice(t, 8, 10) == Slice(s, 8, 10);
    assert Slice(t, 0, 4) == Slice(s, 0, 4);
  }

  /** A `yyyy-mm-dd` text from its year, month and day digits. */
  function IsoDate(year: string, month: string, day: string): string {
    year + "-" + month + "-" + day
  }

  /** A `mm/dd/yyyy` text from its year, month and day digits. */
  function UsDate(year: string, month: string, day: string): string {
    month + "/" + day + "/" + year
  }

  /** The rewrite turns `yyyy-mm-dd` into `mm/dd/yyyy` with the same year,
      month and day. */
  lemma {:induction false} ReformatIsoDate(year: string, month: string, day: string)
    requires |year| == 4 && |month| == 2 && |day| == 2
    ensures ReformatDate(IsoDate(year, month, day)) == UsDate(year, month, day)
  {
    var s := IsoDate(year, month, day);
    assert s[5..7] == month;
    assert s[8..10] == day;
    assert s[..4] == year;
  }

  /** Reads `mm/dd/yyyy` back into `yyyy-mm-dd`. */
  function UsToIso(r: string): string {
    Slice(r, 6, 10) + "-" + Slice(r, 0, 2) + "-" + Slice(r, 3, 5)
  }

  /** On ten-character `yyyy-mm-dd` text the rewrite loses nothing: reading
      the result back gives the input. */
  lemma {:induction false} ReformatDateRoundTrip(s: string)
    requires |s| == 10 && s[4] == '-' && s[7] == '-'
    ensures UsToIso(ReformatDate(s)) == s
  {
    var r := ReformatDate(s);
    assert Slice(r, 6, 10) == s[..4];
    assert Slice(r, 0, 2) == s[5..7];
    assert Slice(r, 3, 5) == s[8..10];
    assert s == s[..4] + "-" + s[5..7] + "-" + s[8..10];
  }

  /** Worked cases: "1985-03-07" becomes "03/07/1985", and the rewrite is not
      idempotent, since rewriting that result again gives "/1/85/03/0". */
  lemma ReformatDateExamples()
    ensures ReformatDate("1985-03-07") == "03/07/1985"
    ensures ReformatDate("03/07/1985") == "/1/85/03/0"
    ensures ReformatDate(ReformatDate("1985-03-07")) != ReformatDate("1985-03-07")
  {
    ReformatIsoDate("1985", "03", "07");
    assert IsoDate("1985", "03", "07") == "1985-03-07";
    assert UsDate("1985", "03", "07") == "03/07/1985";
    var s := "03/07/1985";
    assert Slice(s, 5, 7) == "/1";
    assert Slice(s, 8, 10) == "85";
    assert Slice(s, 0, 4) == "03/0";
  }

  /** The rewrite applied to every value of a column, in order: the value
      the row loop `ReformatDateColumn` leaves in each row. */
  function ReformatDates(col: seq<string>): (r: seq<string>)
    ensures |r| == |col|
    ensures forall i :: 0 <= i < |col| ==> r[i] == ReformatDate(col[i]) && 2 <= |r[i]| <= 10
    ensures forall i :: 0 <= i < |col| && |col[i]| >= 10 ==> |r[i]| == 10 && r[i][2] == '/' && r[i][5] == '/'
  {
    seq(|col|, i requires 0 <= i < |col| => ReformatDate(col[i]))
  }

  /** The source's row loop: each row's value is read and overwritten in
      turn, rows not yet visited keep their original value, and at the end
      every row holds the rewrite of its own original value. */
  method ReformatDateColumn(col: seq<string>) returns (out: seq<string>)
    ensures |out| == |col|
    ensures forall i :: 0 <= i < |col| ==> out[i] == ReformatDate(col[i])
    ensures out == ReformatDates(col)
  {
    out := col;
    var x := 0;
    while x < |out|
      invariant |out| == |col|
      invariant 0 <= x <= |col|
      invariant forall i :: 0 <= i < x ==> out[i] == ReformatDate(col[i])
      invariant forall i :: x <= i < |col| ==> out[i] == col[i]
    {
      out := out[x := ReformatDate(out[x])];
      x := x + 1;
    }
  }
}
