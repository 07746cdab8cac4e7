/** The search box and level select of frontend/src/pages/TeacherStudentList.jsx,
    which narrow the list of students a teacher sees. */
module TeacherStudentList {
  import opened Wrappers

  /** The fields of a student document the filter reads; `name` and `email`
      may be missing. */
  datatype Student = Student(name: Option<string>, email: Option<string>, level: int)

  /** `toLowerCase` on one character, for the ASCII letters. */
  function LowerChar(c: char): (r: char)
    ensures 'A' <= c <= 'Z' ==> r as int == c as int + 32
    ensures !('A' <= c <= 'Z') ==> r == c
  {
    if 'A' <= c <= 'Z' then (c as int + 32) as char else c
  }

  /** `toLowerCase` on a string, character by character. */
  function Lower(s: string): (r: string)
    ensures |r| == |s|
    ensures forall i :: 0 <= i < |s| ==> r[i] == LowerChar(s[i])
  {
    if s == [] then [] else [LowerChar(s[0])] + Lower(s[1..])
  }

  /** `text.includes(pattern)`: pattern occurs in text at some offset. */
  predicate Includes(text: string, pattern: string)
  {
    exists i :: 0 <= i <= |text| - |pattern| && IsPrefix(pattern, text[i..])
  }

  predicate IsPrefix(p: string, s: string)
  {
    |p| <= |s| && s[..|p|] == p
  }

  /** `s?.field?.toLowerCase().includes(search.toLowerCase())`, where a
      missing field gives `undefined`, which is falsy. */
  predicate FieldMatches(field: Option<string>, search: string)
  {
    field.Some? && Includes(Lower(field.value), Lower(search))
  }

  /** The filter's predicate; `None` is the "All Levels" choice `""`, and
      `s.level == filterLevel` compares a number with the selected digits,
      so it is numeric equality. */
  predicate Keep(s: Student, search: string, filterLevel: Option<int>)
  {
    (FieldMatches(s.name, search) || FieldMatches(s.email, search))
    && (filterLevel.None? || s.level == filterLevel.value)
  }

  /** r can be obtained from s by deleting elements. */
  predicate IsSubsequence<T(==)>(r: seq<T>, s: seq<T>)
  {
    if r == [] then true
    else if s == [] then false
    else (r[0] == s[0] && IsSubsequence(r[1..], s[1..])) || IsSubsequence(r, s[1..])
  }

  /** `filteredStudents`: the students the predicate keeps, in their original
      order, and every student the predicate keeps. */
  function FilterStudents(students: seq<Student>, search: string, filterLevel: Option<int>): (r: seq<Student>)
    ensures IsSubsequence(r, students)
    ensures |r| <= |students|
    ensures forall x :: x in r ==> x in students && Keep(x, search, filterLevel)
    ensures forall x :: x in students && Keep(x, search, filterLevel) ==> x in r
    ensures forall x :: multiset(r)[x] == if Keep(x, search, filterLevel) then multiset(students)[x] else 0
  {
    if students == [] then []
    else
      var rest := FilterStudents(students[1..], search, filterLevel);
      assert students == [students[0]] + students[1..];
      assert multiset(students) == multiset{students[0]} + multiset(students[1..]);
      if Keep(students[0], search, filterLevel) then [students[0]] + rest else rest
  }

  /** With a level selected, every student shown has that level. */
  lemma SelectedLevelOnly(students: seq<Student>, search: string, level: int)
    ensures forall x :: x in FilterStudents(students, search, Some(level)) ==> x.level == level
  {
  }

  /** With "All Levels" the level plays no part: a student is shown exactly
      when the name or email matches. */
  lemma AllLevelsNoRestriction(students: seq<Student>, search: string)
    ensures forall x :: x in students ==>
      (x in FilterStudents(students, search, None) <==> FieldMatches(x.name, search) || FieldMatches(x.email, search))
  {
  }

  /** The empty string occurs in every string. */
  lemma IncludesEmpty(text: string)
    ensures Includes(text, "")
  {
    assert IsPrefix("", text[0..]);
  }

  /** An empty search with "All Levels" shows every student that has a name
      or an email, whatever they contain. */
  lemma EmptySearchKeepsNamed(students: seq<Student>)
    ensures forall x :: x in students && (x.name.Some? || x.email.Some?) ==> x in FilterStudents(students, "", None)
  {
    forall x | x in students && (x.name.Some? || x.email.Some?)
      ensures x in FilterStudents(students, "", None)
    {
      assert Lower("") == "";
      if x.name.Some? {
        IncludesEmpty(Lower(x.name.value));
      } else {
        IncludesEmpty(Lower(x.email.value));
      }
    }
  }

  /** The search ignores ASCII case: "AN" finds the email "anu". */
  lemma SearchIgnoresCase()
    ensures FilterStudents([Student(None, Some("anu"), 2)], "AN", None) == [Student(None, Some("anu"), 2)]
  {
    var s := Student(None, Some("anu"), 2);
    assert Lower("AN") == "an" by {
      assert Lower("N") == "n";
    }
    assert Lower("anu") == "anu" by {
      assert Lower("u") == "u";
      assert Lower("nu") == "nu";
    }
    assert IsPrefix("an", "anu"[0..]);
    assert Keep(s, "AN", None);
  }
}
