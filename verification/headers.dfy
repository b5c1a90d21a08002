/** Column-header normalisation: the two exact renames, then every header
    lower-cased, then every space turned into an underscore. */
module Headers {
  import opened Text
  import opened Series

  /** The rename table: exact, case-sensitive keys. */
  const RenameTable: map<string, string> := map["PID" := "patient_id", "DOB" := "date_of_birth"]

  /** `DataFrame.rename(columns=...)` on one label: a label in the table is
      replaced, any other label is kept. The match is exact, so "pid" is not
      renamed. */
  function Rename(h: string): (r: string)
    ensures r != h <==> h == "PID" || h == "DOB"
    ensures h == "PID" ==> r == "patient_id"
    ensures h == "DOB" ==> r == "date_of_birth"
  {
    if h in RenameTable then RenameTable[h] else h
  }

  /** The rename applied to every header, in order. */
  function RenameAll(hs: seq<string>): (r: seq<string>)
    ensures |r| == |hs|
    ensures forall i :: 0 <= i < |hs| ==> r[i] == Rename(hs[i])
  {
    seq(|hs|, i requires 0 <= i < |hs| => Rename(hs[i]))
  }

  /** Exactly "PID" and "DOB" are renamed, to the table's names; the match is
      case-sensitive, so "pid" stays. */
  lemma RenameExact(h: string)
    ensures Rename(h) != h <==> h == "PID" || h == "DOB"
    ensures h == "PID" ==> Rename(h) == "patient_id"
    ensures h == "DOB" ==> Rename(h) == "date_of_birth"
    ensures Rename("pid") == "pid" && Rename("dob") == "dob"
  {
  }

  /** One header's normal form, the reference the whole-list step is
      compared with. */
  function NormalizeHeader(h: string): (r: string)
    ensures |r| == |Rename(h)|
    ensures ' ' !in r && NoUpper(r)
  {
    var l := Lower(Rename(h));
    assert forall k :: 0 <= k < |l| ==> !IsUpper(l[k]);
    ReplaceChar(l, ' ', '_')
  }

  /** The three whole-list steps in source order: rename, `str.lower`,
      `str.replace(' ', '_')`. The header count and order are kept, and no
      header ends up with a space or a capital. */
  function NormalizeHeaders(hs: seq<string>): (r: seq<string>)
    ensures |r| == |hs|
    ensures forall i :: 0 <= i < |hs| ==> r[i] == NormalizeHeader(hs[i])
    ensures forall i :: 0 <= i < |hs| ==> ' ' !in r[i] && NoUpper(r[i])
  {
    var r := StrReplace(StrLower(RenameAll(hs)), ' ', '_');
    assert forall i :: 0 <= i < |hs| ==> NoUpper(r[i]) by {
      forall i | 0 <= i < |hs|
        ensures NoUpper(r[i])
      {
        NormalizedHasNoUpper(hs[i]);
      }
    }
    r
  }

  /** Lower-casing and the space replacement keep the renamed header's length
      and change it character by character: a space becomes `_`, a capital
      its small letter, anything else stays. */
  lemma NormalizeHeaderShape(h: string)
    ensures |NormalizeHeader(h)| == |Rename(h)|
    ensures forall k :: 0 <= k < |Rename(h)| && Rename(h)[k] == ' ' ==> NormalizeHeader(h)[k] == '_'
    ensures forall k :: 0 <= k < |Rename(h)| && Rename(h)[k] != ' ' ==>
              NormalizeHeader(h)[k] == LowerChar(Rename(h)[k])
  {
  }

  lemma NormalizedHasNoUpper(h: string)
    ensures NoUpper(NormalizeHeader(h))
  {
    var l := Lower(Rename(h));
    assert forall k :: 0 <= k < |l| ==> !IsUpper(l[k]);
  }

  /** Normalising an already normal header changes nothing: it has no
      capitals, so it is neither "PID" nor "DOB", lower-casing keeps it, and
      it has no space left to replace. */
  lemma {:induction false} NormalizeHeaderIdempotent(h: string)
    ensures NormalizeHeader(NormalizeHeader(h)) == NormalizeHeader(h)
  {
    var n := NormalizeHeader(h);
    NormalizedHasNoUpper(h);
    assert |n| == 0 || !IsUpper(n[0]);
    assert IsUpper("PID"[0]) && IsUpper("DOB"[0]);
    assert Rename(n) == n;
    LowerFixesNoUpper(n);
    ReplaceCharAbsent(n, ' ', '_');
  }

  /** Running the whole header step twice is the same as running it once. */
  lemma NormalizeHeadersIdempotent(hs: seq<string>)
    ensures NormalizeHeaders(NormalizeHeaders(hs)) == NormalizeHeaders(hs)
  {
    var once := NormalizeHeaders(hs);
    forall i | 0 <= i < |hs|
      ensures NormalizeHeaders(once)[i] == once[i]
    {
      NormalizeHeaderIdempotent(hs[i]);
    }
  }

  /** Worked cases: the two renames and an untouched lower-case "pid". */
  lemma RenameExamples()
    ensures NormalizeHeader("PID") == "patient_id"
    ensures NormalizeHeader("DOB") == "date_of_birth"
    ensures NormalizeHeader("pid") == "pid"
  {
    PidExample();
    DobExample();
    LowerPidExample();
  }

  lemma LowerPidExample()
    ensures NormalizeHeader("pid") == "pid"
  {
    NormalizedFixed("pid");
  }

  lemma PidExample()
    ensures NormalizeHeader("PID") == "patient_id"
  {
    NormalizedFixed("patient_id");
  }

  lemma DobExample()
    ensures NormalizeHeader("DOB") == "date_of_birth"
  {
    NormalizedFixed("date_of_birth");
  }

  /** Worked case: a spaced, capitalised header. */
  lemma SpacedHeaderExample()
    ensures NormalizeHeader("Full Name") == "full_name"
  {
    LowerFullName();
    ReplaceFullName();
  }

  lemma LowerFullName()
    ensures Lower("Full Name") == "full name"
  {
    assert LowerCaseOf("Full Name", "full name");
    LowerUnique("Full Name", "full name");
  }

  lemma ReplaceFullName()
    ensures ReplaceChar("full name", ' ', '_') == "full_name"
  {
    assert ReplacedOf("full name", ' ', '_', "full_name");
    ReplacedUnique("full name", ' ', '_', "full_name");
  }

  /** A header with no capitals, no spaces and not in the rename table is
      already normal. */
  lemma NormalizedFixed(h: string)
    requires NoUpper(h) && ' ' !in h && h !in RenameTable
    ensures NormalizeHeader(h) == h
  {
    LowerFixesNoUpper(h);
    ReplaceCharAbsent(h, ' ', '_');
  }
}
