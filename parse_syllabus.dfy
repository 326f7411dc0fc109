/** The syllabus import script: it keeps the `.xlsx` files of a directory
    listing, derives a subject name from each file name and stores the file's
    first sheet under that name. Reading the workbooks is a parameter
    (`sheetOf`); the file system is not modelled. */
module Syllabus {
  import opened Common

  const ProgressSuffix: string := "_Progress.xlsx"
  const ChemistryPart: string := "_Chemistry"

  /** `s.endsWith(suffix)`. */
  predicate EndsWith(s: string, suffix: string)
  {
    |suffix| <= |s| && s[|s| - |suffix|..] == suffix
  }

  /** `pat` occurs in `s` starting at index `i`. */
  predicate OccursAt(s: string, pat: string, i: nat)
  {
    i + |pat| <= |s| && s[i..i + |pat|] == pat
  }

  /** First index at or after `from` where `pat` occurs. */
  function IndexFrom(s: string, pat: string, from: nat): (r: Option<nat>)
    decreases |s| - from
    ensures r.Some? ==> from <= r.value && OccursAt(s, pat, r.value)
    ensures r.Some? ==> forall j :: from <= j < r.value ==> !OccursAt(s, pat, j)
    ensures r.None? ==> forall j :: from <= j ==> !OccursAt(s, pat, j)
  {
    if from + |pat| > |s| then None
    else if s[from..from + |pat|] == pat then Some(from)
    else IndexFrom(s, pat, from + 1)
  }

  /** `s.indexOf(pat)`, with None for -1. */
  function IndexOf(s: string, pat: string): Option<nat>
  {
    IndexFrom(s, pat, 0)
  }

  /** `s.includes(pat)`. */
  predicate Contains(s: string, pat: string)
  {
    IndexOf(s, pat).Some?
  }

  /** `includes` holds exactly when the pattern occurs somewhere. */
  lemma ContainsIff(s: string, pat: string)
    ensures Contains(s, pat) <==> exists i: nat :: OccursAt(s, pat, i)
  {
    if Contains(s, pat) {
      assert OccursAt(s, pat, IndexOf(s, pat).value);
    }
  }

  /** A string without the first character of a non-empty pattern does not
      contain the pattern. */
  lemma {:induction false} MissingFirstChar(s: string, pat: string)
    requires |pat| > 0 && pat[0] !in s
    ensures !Contains(s, pat)
  {
    forall i: nat | i + |pat| <= |s|
      ensures !OccursAt(s, pat, i)
    {
      assert s[i] in s;
      assert s[i..i + |pat|][0] == s[i];
    }
  }

  /** `s.replace(pat, rep)` with a string pattern: only the first occurrence is
      replaced. */
  function ReplaceFirst(s: string, pat: string, rep: string): (r: string)
    ensures !Contains(s, pat) ==> r == s
    ensures Contains(s, pat) ==>
              exists i: nat :: OccursAt(s, pat, i) && (forall j: nat :: j < i ==> !OccursAt(s, pat, j))
                               && r == s[..i] + rep + s[i + |pat|..]
  {
    match IndexOf(s, pat)
    case None => s
    case Some(i) => s[..i] + rep + s[i + |pat|..]
  }

  /** `s.replace(/from/g, to)` for a one-character pattern. */
  function ReplaceAllChar(s: string, from: char, to: char): (r: string)
    ensures |r| == |s|
    ensures forall i :: 0 <= i < |s| ==> r[i] == if s[i] == from then to else s[i]
  {
    if s == [] then []
    else ReplaceAllChar(s[..|s| - 1], from, to) + [if s[|s| - 1] == from then to else s[|s| - 1]]
  }

  /** Replacing every `from` by a different character leaves no `from`. */
  lemma ReplaceAllCharRemoves(s: string, from: char, to: char)
    requires from != to
    ensures from !in ReplaceAllChar(s, from, to)
  {
    var r := ReplaceAllChar(s, from, to);
    forall i | 0 <= i < |r|
      ensures r[i] != from
    {
    }
  }

  /** The subject before the overrides: the file name with the first
      "_Progress.xlsx" removed, then the first "_Chemistry" removed, then every
      "_" turned into a space. */
  function BaseSubject(file: string): (r: string)
    ensures '_' !in r
  {
    ReplaceAllCharRemoves(ReplaceFirst(ReplaceFirst(file, ProgressSuffix, ""), ChemistryPart, ""), '_', ' ');
    ReplaceAllChar(ReplaceFirst(ReplaceFirst(file, ProgressSuffix, ""), ChemistryPart, ""), '_', ' ')
  }

  /** The subject a file is stored under, written as priorities: the last
      override in the script that applies wins. */
  function Subject(file: string): (r: string)
    ensures '_' !in r
  {
    if Contains(file, "Physical") then "Physical Chemistry"
    else if Contains(file, "Organic") then "Organic Chemistry"
    else if Contains(file, "Inorganic") then "Inorganic Chemistry"
    else BaseSubject(file)
  }

  /** The script's steps for one file: the replace chain, then the three
      overrides in order, each reassigning `subject`. */
  method DeriveSubject(file: string) returns (subject: string)
    ensures subject == Subject(file)
    ensures '_' !in subject
  {
    subject := BaseSubject(file);
    if Contains(file, "Inorganic") {
      subject := "Inorganic Chemistry";
    }
    if Contains(file, "Organic") {
      subject := "Organic Chemistry";
    }
    if Contains(file, "Physical") {
      subject := "Physical Chemistry";
    }
  }

  /** A name `<name>_Progress.xlsx` whose `<name>` has no underscore gives back
      `<name>`: the suffix is found right after the name, no "_Chemistry" is
      left, and there is no underscore to replace. */
  lemma {:induction false} BaseSubjectOfProgressFile(name: string)
    requires '_' !in name
    ensures BaseSubject(name + ProgressSuffix) == name
  {
    var file := name + ProgressSuffix;
    assert OccursAt(file, ProgressSuffix, |name|) by {
      assert file[|name|..|name| + |ProgressSuffix|] == ProgressSuffix;
    }
    forall j | 0 <= j < |name|
      ensures !OccursAt(file, ProgressSuffix, j)
    {
      assert file[j] == name[j] && name[j] in name;
      assert j + |ProgressSuffix| <= |file| ==> file[j..j + |ProgressSuffix|][0] == file[j];
    }
    var k := IndexOf(file, ProgressSuffix);
    assert k == Some(|name|);
    var stripped := ReplaceFirst(file, ProgressSuffix, "");
    assert stripped == name by {
      assert file[..|name|] == name;
      assert file[|name| + |ProgressSuffix|..] == [];
    }
    MissingFirstChar(name, ChemistryPart);
    var spaced := ReplaceAllChar(name, '_', ' ');
    assert spaced == name;
  }

  /** The example from the script's own naming scheme. */
  lemma PhysicsFile()
    ensures BaseSubject("Physics_Progress.xlsx") == "Physics"
  {
    assert "Physics_Progress.xlsx" == "Physics" + ProgressSuffix;
    BaseSubjectOfProgressFile("Physics");
  }

  /** "Physical" in the name always gives "Physical Chemistry". */
  lemma PhysicalWins(file: string)
    requires Contains(file, "Physical")
    ensures Subject(file) == "Physical Chemistry"
  {
  }

  /** The case-sensitive "Organic" check does not match "Inorganic". */
  lemma {:induction false} InorganicIsNotOrganic()
    ensures !Contains("Inorganic", "Organic")
  {
    MissingFirstChar("Inorganic", "Organic");
  }

  /** A name containing "Inorganic", with no capital "O" and no "Physical",
      gives "Inorganic Chemistry". */
  lemma {:induction false} InorganicOverride(file: string)
    requires Contains(file, "Inorganic") && 'O' !in file && !Contains(file, "Physical")
    ensures Subject(file) == "Inorganic Chemistry"
  {
    MissingFirstChar(file, "Organic");
  }

  /** `files.filter(f => f.endsWith('.xlsx'))`. */
  function SpreadsheetFiles(listing: seq<string>): (r: seq<string>)
    ensures |r| <= |listing|
    ensures forall f :: f in r <==> f in listing && EndsWith(f, ".xlsx")
  {
    if listing == [] then []
    else
      var last := listing[|listing| - 1];
      var front := SpreadsheetFiles(listing[..|listing| - 1]);
      assert forall f :: f in listing <==> f in listing[..|listing| - 1] || f == last;
      if EndsWith(last, ".xlsx") then front + [last] else front
  }

  /** The filter keeps the listing's order: filtering two parts of a listing
      and joining the results is filtering the whole. */
  lemma {:induction false} SpreadsheetFilesAppend(a: seq<string>, b: seq<string>)
    ensures SpreadsheetFiles(a + b) == SpreadsheetFiles(a) + SpreadsheetFiles(b)
  {
    if b == [] {
      assert a + b == a;
    } else {
      var front := b[..|b| - 1];
      assert (a + b)[..|a + b| - 1] == a + front;
      SpreadsheetFilesAppend(a, front);
    }
  }

  /** The dictionary after storing every file in order: each file's sheet
      under its subject, a later file replacing an earlier one. */
  function SyllabusOf<D>(files: seq<string>, sheetOf: string -> D): (r: map<string, D>)
    ensures r.Keys == set f | f in files :: Subject(f)
  {
    if files == [] then map[]
    else
      var last := files[|files| - 1];
      var front := files[..|files| - 1];
      assert files == front + [last];
      assert forall f :: f in files <==> f in front || f == last;
      SyllabusOf(front, sheetOf)[Subject(last) := sheetOf(last)]
  }

  /** The `forEach` that fills the dictionary. */
  method BuildSyllabus<D>(files: seq<string>, sheetOf: string -> D) returns (syllabus: map<string, D>)
    ensures syllabus == SyllabusOf(files, sheetOf)
  {
    syllabus := map[];
    var i := 0;
    while i < |files|
      invariant 0 <= i <= |files|
      invariant syllabus == SyllabusOf(files[..i], sheetOf)
    {
      var subject := DeriveSubject(files[i]);
      TakeSnoc(files, i);
      syllabus := syllabus[subject := sheetOf(files[i])];
      i := i + 1;
    }
    TakeAll(files);
  }

  /** The whole script over a directory listing. */
  method ParseSyllabus<D>(listing: seq<string>, sheetOf: string -> D) returns (syllabus: map<string, D>)
    ensures syllabus == SyllabusOf(SpreadsheetFiles(listing), sheetOf)
    ensures syllabus.Keys == set f | f in listing && EndsWith(f, ".xlsx") :: Subject(f)
  {
    var files := SpreadsheetFiles(listing);
    syllabus := BuildSyllabus(files, sheetOf);
  }

  /** A subject's entry is the sheet of the last file that derives it: later
      files with the same subject overwrite earlier ones. */
  lemma {:induction false} LastFileWins<D>(files: seq<string>, sheetOf: string -> D, k: nat)
    requires k < |files|
    requires forall j :: k < j < |files| ==> Subject(files[j]) != Subject(files[k])
    ensures Subject(files[k]) in SyllabusOf(files, sheetOf)
    ensures SyllabusOf(files, sheetOf)[Subject(files[k])] == sheetOf(files[k])
  {
    if k < |files| - 1 {
      var front := files[..|files| - 1];
      assert front[k] == files[k];
      assert forall j :: k < j < |front| ==> front[j] == files[j];
      LastFileWins(front, sheetOf, k);
    }
  }
}
