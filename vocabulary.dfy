/** The skills vocabulary: `load_common_skills` reads one skill per line,
    trimmed and lower-cased, without duplicates; `KNOWN_SKILLS` is that list
    sorted by length, longest first.

    The file is given by its content, `None` standing for a file that does
    not exist (`FileNotFoundError`). */
module Vocabulary {
  import opened Text

  /** The lines that iterating over a text file yields, without their line
      ends: a final newline does not start another line. */
  function FileLines(content: string): (lines: seq<string>)
    ensures content == [] ==> lines == []
    ensures forall k :: 0 <= k < |lines| ==> Avoids(lines[k], {'\n'}) && CharsWithin(lines[k], content)
  {
    var parts := SplitOn(content, {'\n'});
    if parts[|parts| - 1] == [] then parts[..|parts| - 1] else parts
  }

  /** `line.strip().lower()` */
  function NormalizeSkill(line: string): (s: string)
    ensures NoUpper(s)
    ensures s == [] || (!IsSpace(s[0]) && !IsSpace(s[|s| - 1]))
  {
    Lower(Strip(line))
  }

  /** The skills a file's lines contribute: all of them lower-case. */
  function SkillSet(lines: seq<string>): (r: set<string>)
    ensures forall s :: s in r ==> NoUpper(s)
  {
    var r := ImageSet(lines, NormalizeSkill);
    assert forall s :: s in r ==> NoUpper(s) by {
      forall s | s in r ensures NoUpper(s) {
        ImageSetMembers(lines, NormalizeSkill, s);
      }
    }
    r
  }

  /** A skill is in the set exactly when some line normalises to it. */
  lemma SkillSetMembers(lines: seq<string>, s: string)
    ensures s in SkillSet(lines) <==> exists i :: 0 <= i < |lines| && NormalizeSkill(lines[i]) == s
  {
    ImageSetMembers(lines, NormalizeSkill, s);
  }

  /** The loop over the file's lines: `skills.add(line.strip().lower())`. */
  method CollectSkills(lines: seq<string>) returns (found: set<string>)
    ensures found == SkillSet(lines)
  {
    found := {};
    for i := 0 to |lines|
      invariant found == SkillSet(lines[..i])
    {
      found := found + {NormalizeSkill(lines[i])};
      assert lines[..i + 1][..i] == lines[..i];
    }
    assert lines[..|lines|] == lines;
  }

  /** `load_common_skills(file_path)` */
  method LoadCommonSkills(file: Option<string>) returns (skills: seq<string>)
    ensures file.None? ==> skills == []
    ensures file.Some? ==> forall s :: s in skills <==> s in SkillSet(FileLines(file.value))
    ensures NoDuplicates(skills)
    ensures forall i :: 0 <= i < |skills| ==> NoUpper(skills[i])
  {
    var found: set<string> := {};
    if file.Some? {
      found := CollectSkills(FileLines(file.value));
    }
    skills := SetToSeq(found);
  }

  // ------------------------------------------------------------------- sort

  /** Longest first: `sort(key=len, reverse=True)` as an order. */
  predicate SortedByLengthDesc(s: seq<string>) {
    forall i, j :: 0 <= i < j < |s| ==> |s[i]| >= |s[j]|
  }

  /** Exchanges two neighbouring elements. */
  method SwapDown(a: array<string>, j: nat)
    requires 0 < j < a.Length
    modifies a
    ensures a[..] == old(a[..])[j - 1 := old(a[j])][j := old(a[j - 1])]
    ensures multiset(a[..]) == multiset(old(a[..]))
  {
    a[j - 1], a[j] := a[j], a[j - 1];
  }

  /** `KNOWN_SKILLS.sort(key=len, reverse=True)`, in place. */
  method SortByLengthDescending(a: array<string>)
    modifies a
    ensures SortedByLengthDesc(a[..])
    ensures multiset(a[..]) == multiset(old(a[..]))
  {
    for i := 0 to a.Length
      invariant SortedByLengthDesc(a[..i])
      invariant multiset(a[..]) == multiset(old(a[..]))
    {
      var j := i;
      while j > 0 && |a[j - 1]| < |a[j]|
        invariant 0 <= j <= i
        invariant forall p, q :: 0 <= p < q <= i && p != j && q != j ==> |a[p]| >= |a[q]|
        invariant forall q :: j < q <= i ==> |a[j]| > |a[q]|
        invariant multiset(a[..]) == multiset(old(a[..]))
      {
        SwapDown(a, j);
        j := j - 1;
      }
    }
  }

  /** A sequence has no duplicates exactly when no element occurs twice in
      its multiset. */
  lemma {:induction false} NoDuplicatesMultiset<T>(s: seq<T>)
    ensures NoDuplicates(s) <==> forall x :: multiset(s)[x] <= 1
  {
    if s != [] {
      var rest := s[1..];
      NoDuplicatesMultiset(rest);
      assert s == [s[0]] + rest;
      assert multiset(s) == multiset{s[0]} + multiset(rest);
      if NoDuplicates(s) {
        assert NoDuplicates(rest) by {
          forall i, j | 0 <= i < j < |rest| ensures rest[i] != rest[j] {
            assert rest[i] == s[i + 1] && rest[j] == s[j + 1];
          }
        }
        assert s[0] !in rest by {
          forall k | 0 <= k < |rest| ensures rest[k] != s[0] {
            assert rest[k] == s[k + 1];
          }
        }
      } else {
        var i, j :| 0 <= i < j < |s| && s[i] == s[j];
        if i == 0 {
          assert s[j] == rest[j - 1];
          assert multiset(s)[s[0]] >= 2;
        } else {
          assert rest[i - 1] == rest[j - 1];
          assert !NoDuplicates(rest);
          var x :| multiset(rest)[x] > 1;
          assert multiset(s)[x] > 1;
        }
      }
    }
  }

  /** `KNOWN_SKILLS`: the vocabulary of the skills file, longest first. */
  method LoadKnownSkills(file: Option<string>) returns (known: seq<string>)
    ensures file.None? ==> known == []
    ensures file.Some? ==> forall s :: s in known <==> s in SkillSet(FileLines(file.value))
    ensures NoDuplicates(known)
    ensures SortedByLengthDesc(known)
  {
    var skills := LoadCommonSkills(file);
    var a := new string[|skills|](i requires 0 <= i < |skills| => skills[i]);
    assert a[..] == skills;
    SortByLengthDescending(a);
    known := a[..];
    NoDuplicatesMultiset(skills);
    NoDuplicatesMultiset(known);
    assert forall s :: s in known <==> s in skills by {
      forall s ensures s in known <==> s in skills {
        assert s in known <==> multiset(known)[s] > 0;
        assert s in skills <==> multiset(skills)[s] > 0;
      }
    }
  }
}
