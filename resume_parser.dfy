/** The resume extractor (`parse_resume_info`): name, email, phone, known
    skills, an experience signal and education signals from one resume text.

    The entity recogniser `nlp(resume_text).ents` is an input `ents`, and the
    module-level vocabulary `KNOWN_SKILLS` is an input `known`. */
module ResumeParser {
  import opened Text
  import opened Candidate
  import opened ResumePatterns

  // ------------------------------------------------------------------- name

  /** `ent.label_ == "PERSON" and len(ent.text.split()) >= 2` */
  predicate IsPersonName(e: Entity) {
    e.kind == "PERSON" && WordCount(e.text) >= 2
  }

  /** The text of the first entity that looks like a full name. */
  function FirstPersonName(ents: seq<Entity>): (r: Option<string>)
    ensures r.None? <==> forall i :: 0 <= i < |ents| ==> !IsPersonName(ents[i])
    ensures r.Some? ==> exists i :: 0 <= i < |ents| && IsPersonName(ents[i]) && ents[i].text == r.value
                                    && forall j :: 0 <= j < i ==> !IsPersonName(ents[j])
  {
    if ents == [] then None
    else if IsPersonName(ents[0]) then Some(ents[0].text)
    else
      var r := FirstPersonName(ents[1..]);
      assert forall i :: 0 <= i < |ents[1..]| ==> ents[1..][i] == ents[i + 1];
      r
  }

  /** `[line.strip() for line in resume_text.split('\n') if line.strip()]` */
  function NonBlankLines(text: string): seq<string> {
    StrippedNonEmpty(SplitOn(text, {'\n'}))
  }

  /** A line that may be a name: no `@`, no run of ten digits, fewer than
      five words. */
  predicate IsNameLike(line: string) {
    '@' !in line && !HasDigitRun(line, 10) && WordCount(line) < 5
  }

  /** The first name-like line. */
  function FirstNameLike(lines: seq<string>): (r: Option<string>)
    ensures r.None? <==> forall i :: 0 <= i < |lines| ==> !IsNameLike(lines[i])
    ensures r.Some? ==> exists i :: 0 <= i < |lines| && lines[i] == r.value && IsNameLike(r.value)
                                    && forall j :: 0 <= j < i ==> !IsNameLike(lines[j])
  {
    if lines == [] then None
    else if IsNameLike(lines[0]) then Some(lines[0])
    else
      var r := FirstNameLike(lines[1..]);
      assert forall i :: 0 <= i < |lines[1..]| ==> lines[1..][i] == lines[i + 1];
      r
  }

  /** `lines[:3]` */
  function FirstThree<T>(xs: seq<T>): (r: seq<T>)
    ensures |r| <= 3 && r <= xs
    ensures |xs| >= 3 ==> |r| == 3
    ensures |xs| < 3 ==> r == xs
  {
    if |xs| <= 3 then xs else xs[..3]
  }

  /** The name heuristic: the first full-name PERSON entity, else the first
      name-like line among the first three non-blank lines. */
  function GuessName(text: string, ents: seq<Entity>): (r: Option<string>)
    ensures FirstPersonName(ents).Some? ==> r == FirstPersonName(ents)
    ensures FirstPersonName(ents).None? ==> r == FirstNameLike(FirstThree(NonBlankLines(text)))
  {
    match FirstPersonName(ents)
    case Some(n) => Some(n)
    case None => FirstNameLike(FirstThree(NonBlankLines(text)))
  }

  // ----------------------------------------------------------------- skills

  /** The vocabulary entries that occur, ignoring case, in the lower-cased
      text `low`. */
  function FoundSkills(low: string, known: seq<string>): (r: set<string>)
    ensures forall s :: s in r ==> s in known && Contains(low, Lower(s))
  {
    if known == [] then {}
    else
      var last := known[|known| - 1];
      FoundSkills(low, known[..|known| - 1]) + (if Contains(low, Lower(last)) then {last} else {})
  }

  /** A skill is found exactly when it is a vocabulary entry whose
      lower-cased form occurs in the text. */
  lemma {:induction false} FoundSkillsMembers(low: string, known: seq<string>, s: string)
    ensures s in FoundSkills(low, known) <==> (exists i :: 0 <= i < |known| && known[i] == s) && Contains(low, Lower(s))
  {
    if known != [] {
      var front := known[..|known| - 1];
      FoundSkillsMembers(low, front, s);
      assert forall i :: 0 <= i < |front| ==> front[i] == known[i];
      if s == known[|known| - 1] {
        assert exists i :: 0 <= i < |known| && known[i] == s;
      }
    }
  }

  /** The found skills depend on the vocabulary as a set, not on its order
      or repetitions. */
  lemma FoundSkillsOrderFree(low: string, known1: seq<string>, known2: seq<string>)
    requires forall s :: s in known1 <==> s in known2
    ensures FoundSkills(low, known1) == FoundSkills(low, known2)
  {
    forall s ensures s in FoundSkills(low, known1) <==> s in FoundSkills(low, known2) {
      FoundSkillsMembers(low, known1, s);
      FoundSkillsMembers(low, known2, s);
      assert (exists i :: 0 <= i < |known1| && known1[i] == s) <==> s in known1;
      assert (exists i :: 0 <= i < |known2| && known2[i] == s) <==> s in known2;
    }
  }

  /** An empty vocabulary entry (a blank line in the skills file) occurs in
      every text, so it is found in every resume. */
  lemma EmptySkillAlwaysFound(low: string, known: seq<string>)
    requires [] in known
    ensures [] in FoundSkills(low, known)
  {
    assert PrefixAt(low, 0, Lower([]));
    FoundSkillsMembers(low, known, []);
  }

  // ------------------------------------------------------------- experience

  /** `[f"{group(1)} years experience"]` for the first experience mention. */
  function ExperienceSignals(low: string): (r: seq<string>)
    ensures |r| <= 1
  {
    match FindExperienceMention(low)
    case None => []
    case Some(g) => [g + " years experience"]
  }

  /** At most one experience fragment, `"<n> years experience"`, where `<n>`
      is the whole digit group of the leftmost mention in the text. */
  lemma ExperienceSignalsShape(low: string)
    ensures |ExperienceSignals(low)| <= 1
    ensures ExperienceSignals(low) == [] <==> forall p :: 0 <= p <= |low| ==> ExperienceMentionAt(low, p).None?
    ensures ExperienceSignals(low) != [] ==>
              exists g :: g != [] && AllDigits(g) && Contains(low, g) && ExperienceSignals(low)[0] == g + " years experience"
    ensures ExperienceSignals(low) != [] ==>
              exists q :: 0 <= q <= |low| && ExperienceMentionAt(low, q).Some?
                          && (forall k :: 0 <= k < q ==> ExperienceMentionAt(low, k).None?)
                          && ExperienceSignals(low)[0] == ExperienceMentionAt(low, q).value + " years experience"
  {
  }

  /** A mention at the very start of the text gives the fragment. */
  lemma ExperienceSignalsAtStart(t: string, g: string)
    requires ExperienceMentionAt(t, 0) == Some(g)
    ensures ExperienceSignals(t) == [g + " years experience"]
  {
    FindExperienceMentionAtStart(t);
  }

  /** In "15 years experience" the mention at the start takes the whole
      number, so by `ExperienceSignalsAtStart` the fragment is
      "15 years experience", never "5 years experience". */
  lemma ExperienceWholeNumber(t: string)
    requires t == "15 years experience"
    ensures ExperienceMentionAt(t, 0) == Some("15")
  {
    SampleDigits();
    SampleWords(t);
    assert t[0..2] == "15";
  }

  lemma SampleWords(t: string)
    requires t == "15 years experience"
    ensures RunEnd(t, 2, IsSpace) == 3 && t[3..8] == "years"
    ensures RunEnd(t, 8, IsSpace) == 9 && t[9..11] != "of" && t[9..12] == "exp"
  {
    assert RunEnd(t, 2, IsSpace) == 3 by { assert !IsSpace(t[3]); }
    assert RunEnd(t, 8, IsSpace) == 9 by { assert !IsSpace(t[9]); }
  }

  lemma SampleDigits()
    ensures RunEnd("15 years experience", 0, IsDigit) == 2
  {
    var t := "15 years experience";
    assert t[0] == '1' && t[1] == '5' && t[2] == ' ';
    assert RunEnd(t, 2, IsDigit) == 2;
    assert RunEnd(t, 1, IsDigit) == 2;
  }

  // -------------------------------------------------------------- education

  const EducationKeywords: seq<string> := ["education", "academic background", "qualifications"]

  /** The section of the first keyword among `kws` that occurs in `low`. */
  function FirstKeywordSection(low: string, kws: seq<string>): (r: Option<string>)
    ensures r.None? <==> forall i :: 0 <= i < |kws| ==> !Contains(low, kws[i])
  {
    if kws == [] then None
    else if Contains(low, kws[0]) then KeywordSection(low, kws[0])
    else
      var r := FirstKeywordSection(low, kws[1..]);
      assert forall i :: 0 <= i < |kws[1..]| ==> kws[1..][i] == kws[i + 1];
      r
  }

  /** The degree, university and year fragments of one education section. */
  function EducationSignals(section: string): (r: seq<string>)
    ensures r == [] <==> FindDegree(section).None? && FindUniversity(section).None? && FindYear(section).None?
  {
    DegreeSignal(section) + UniversitySignal(section) + YearSignal(section)
  }

  function DegreeSignal(section: string): seq<string> {
    DegreeFragment(FindDegree(section))
  }

  function UniversitySignal(section: string): seq<string> {
    UniversityFragment(FindUniversity(section))
  }

  function YearSignal(section: string): seq<string> {
    YearFragment(FindYear(section))
  }

  /** `f"Degree: {deg.strip()}"` when a degree was found. */
  function DegreeFragment(degree: Option<string>): seq<string> {
    match degree
    case None => []
    case Some(d) => ["Degree: " + Strip(d)]
  }

  /** `f"University: {uni.strip()}"` when an institution was found. */
  function UniversityFragment(university: Option<string>): seq<string> {
    match university
    case None => []
    case Some(u) => ["University: " + Strip(u)]
  }

  /** `f"Year: {years[0]}"` when a year was found. */
  function YearFragment(year: Option<string>): seq<string> {
    match year
    case None => []
    case Some(y) => ["Year: " + y]
  }

  /** Position of a fragment's tag in the order Degree, University, Year
      (3 for anything else). */
  function TagRank(f: string): nat {
    if |f| >= 8 && f[..8] == "Degree: " then 0
    else if |f| >= 12 && f[..12] == "University: " then 1
    else if |f| >= 6 && f[..6] == "Year: " then 2
    else 3
  }

  /** Tags strictly increase along the fragments. */
  predicate StrictlyRanked(r: seq<string>) {
    forall i, j :: 0 <= i < j < |r| ==> TagRank(r[i]) < TagRank(r[j])
  }

  lemma RankedConcat(a: seq<string>, b: seq<string>)
    requires StrictlyRanked(a) && StrictlyRanked(b)
    requires forall i, j :: 0 <= i < |a| && 0 <= j < |b| ==> TagRank(a[i]) < TagRank(b[j])
    ensures StrictlyRanked(a + b)
  {
    forall i, j | 0 <= i < j < |a + b| ensures TagRank((a + b)[i]) < TagRank((a + b)[j]) {
      if j < |a| {
        assert (a + b)[i] == a[i] && (a + b)[j] == a[j];
      } else if i >= |a| {
        assert (a + b)[i] == b[i - |a|] && (a + b)[j] == b[j - |a|];
      } else {
        assert (a + b)[i] == a[i] && (a + b)[j] == b[j - |a|];
      }
    }
  }

  /** The year fragment is `Year: ` and four digits starting with 19 or 20. */
  predicate IsYearFragment(f: string) {
    |f| == 10 && f[..6] == "Year: " && AllDigits(f[6..]) && (f[6..8] == "19" || f[6..8] == "20")
  }

  lemma YearSignalShape(section: string)
    ensures |YearSignal(section)| <= 1
    ensures forall i :: 0 <= i < |YearSignal(section)| ==> TagRank(YearSignal(section)[i]) == 2
    ensures forall i :: 0 <= i < |YearSignal(section)| ==> IsYearFragment(YearSignal(section)[i])
  {
    if FindYear(section).Some? {
      var v := FindYear(section).value;
      var f := "Year: " + v;
      assert f[..6] == "Year: " && f[6..] == v && f[6..8] == v[..2];
    }
  }

  lemma DegreeSignalShape(section: string)
    ensures |DegreeSignal(section)| <= 1
    ensures forall i :: 0 <= i < |DegreeSignal(section)| ==> TagRank(DegreeSignal(section)[i]) == 0
  {
    if FindDegree(section).Some? {
      var f := "Degree: " + Strip(FindDegree(section).value);
      assert f[..8] == "Degree: ";
    }
  }

  lemma UniversitySignalShape(section: string)
    ensures |UniversitySignal(section)| <= 1
    ensures forall i :: 0 <= i < |UniversitySignal(section)| ==> TagRank(UniversitySignal(section)[i]) == 1
  {
    if FindUniversity(section).Some? {
      var f := "University: " + Strip(FindUniversity(section).value);
      assert f[0] == 'U' && f[..12] == "University: ";
      assert f[..8][0] == 'U';
    }
  }

  /** At most three education fragments, tagged in the order Degree,
      University, Year, each tag at most once; the year fragment holds four
      digits starting with 19 or 20. */
  lemma EducationSignalsShape(section: string)
    ensures |EducationSignals(section)| <= 3
    ensures StrictlyRanked(EducationSignals(section))
    ensures forall i :: 0 <= i < |EducationSignals(section)| ==> TagRank(EducationSignals(section)[i]) < 3
    ensures forall i :: 0 <= i < |EducationSignals(section)| && TagRank(EducationSignals(section)[i]) == 2 ==>
              IsYearFragment(EducationSignals(section)[i])
  {
    var d, u, y := DegreeSignal(section), UniversitySignal(section), YearSignal(section);
    DegreeSignalShape(section);
    UniversitySignalShape(section);
    YearSignalShape(section);
    RankedConcat(d, u);
    var du := d + u;
    RankedConcat(du, y);
    var r := du + y;
    assert r == EducationSignals(section);
    forall i | 0 <= i < |r| ensures TagRank(r[i]) < 3 && (TagRank(r[i]) == 2 ==> IsYearFragment(r[i])) {
      if i < |du| {
        assert r[i] == du[i];
        assert TagRank(du[i]) < 2 by {
          if i < |d| { assert du[i] == d[i]; } else { assert du[i] == u[i - |d|]; }
        }
      } else {
        assert r[i] == y[i - |du|];
      }
    }
  }

  /** The education fragments of a lower-cased resume text. */
  function EducationOf(low: string): (r: seq<string>)
    ensures |r| <= 3
    ensures r != [] ==> exists k :: 0 <= k < |EducationKeywords| && Contains(low, EducationKeywords[k])
  {
    match FirstKeywordSection(low, EducationKeywords)
    case None => []
    case Some(section) =>
      EducationSignalsShape(section);
      EducationSignals(section)
  }

  /** Only the first keyword present chooses the section; with no keyword
      present there are no education fragments. */
  lemma {:induction false} FirstKeywordChosen(low: string, kws: seq<string>, k: nat)
    requires k < |kws| && Contains(low, kws[k])
    requires forall j :: 0 <= j < k ==> !Contains(low, kws[j])
    ensures FirstKeywordSection(low, kws) == KeywordSection(low, kws[k])
    ensures FirstKeywordSection(low, kws).Some?
  {
    if k > 0 {
      FirstKeywordChosen(low, kws[1..], k - 1);
    }
  }

  /** The name is either the text of a PERSON entity of at least two words,
      or one of the first three non-blank lines, stripped, with no `@`, no
      run of ten digits and fewer than five words; the line is used only
      when no such entity exists. */
  lemma NameShape(text: string, ents: seq<Entity>)
    ensures GuessName(text, ents).Some? ==>
              (exists i :: 0 <= i < |ents| && IsPersonName(ents[i]) && ents[i].text == GuessName(text, ents).value)
              || ((forall i :: 0 <= i < |ents| ==> !IsPersonName(ents[i]))
                  && GuessName(text, ents).value in FirstThree(NonBlankLines(text))
                  && IsNameLike(GuessName(text, ents).value)
                  && GuessName(text, ents).value == Strip(GuessName(text, ents).value))
    ensures GuessName(text, ents).None? <==>
              (forall i :: 0 <= i < |ents| ==> !IsPersonName(ents[i]))
              && (forall i :: 0 <= i < |FirstThree(NonBlankLines(text))| ==> !IsNameLike(FirstThree(NonBlankLines(text))[i]))
  {
    var lines := NonBlankLines(text);
    var head := FirstThree(lines);
    if FirstPersonName(ents).None? && FirstNameLike(head).Some? {
      var i :| 0 <= i < |head| && head[i] == FirstNameLike(head).value;
      assert head[i] == lines[i];
      StripTrimmed(lines[i]);
    }
  }

  // ---------------------------------------------------------------- extract

  /** Step 1 of `parse_resume_info`: the name heuristic. */
  method ExtractName(text: string, ents: seq<Entity>) returns (name: Option<string>)
    ensures name == GuessName(text, ents)
  {
    name := None;
    var nameCandidates: seq<string> := [];
    for i := 0 to |ents|
      invariant nameCandidates == []
      invariant FirstPersonName(ents) == FirstPersonName(ents[i..])
    {
      if IsPersonName(ents[i]) {
        nameCandidates := nameCandidates + [ents[i].text];
        break;
      }
      assert ents[i..][1..] == ents[i + 1..];
    }
    if nameCandidates != [] {
      name := Some(nameCandidates[0]);
    } else {
      var lines := NonBlankLines(text);
      if lines != [] {
        var head := FirstThree(lines);
        for k := 0 to |head|
          invariant name.None?
          invariant FirstNameLike(head) == FirstNameLike(head[k..])
        {
          var line := head[k];
          if IsNameLike(line) {
            name := Some(line);
            break;
          }
          assert head[k..][1..] == head[k + 1..];
        }
      }
    }
  }

  /** Step 3 of `parse_resume_info`: every vocabulary entry contained in the
      lower-cased text, each once. */
  method ExtractSkills(textLower: string, known: seq<string>) returns (skills: seq<string>)
    ensures NoDuplicates(skills)
    ensures forall s :: s in skills <==> s in FoundSkills(textLower, known)
  {
    var foundSkills: set<string> := {};
    for i := 0 to |known|
      invariant foundSkills == FoundSkills(textLower, known[..i])
    {
      var skill := known[i];
      if Contains(textLower, Lower(skill)) {
        foundSkills := foundSkills + {skill};
      }
      assert known[..i + 1][..i] == known[..i];
    }
    assert known[..|known|] == known;
    skills := SetToSeq(foundSkills);
  }

  /** The conditional appends of the degree, university and year found in
      one section. */
  method AppendFragments(degree: Option<string>, university: Option<string>, year: Option<string>)
    returns (education: seq<string>)
    ensures education == DegreeFragment(degree) + UniversityFragment(university) + YearFragment(year)
  {
    education := [];
    if degree.Some? {
      education := education + ["Degree: " + Strip(degree.value)];
    }
    if university.Some? {
      education := education + ["University: " + Strip(university.value)];
    }
    if year.Some? {
      education := education + ["Year: " + year.value];
    }
  }

  /** Step 5 of `parse_resume_info`: the education fragments of the section
      of the first keyword present. */
  method ExtractEducation(textLower: string) returns (education: seq<string>)
    ensures education == EducationOf(textLower)
  {
    education := [];
    for k := 0 to |EducationKeywords|
      invariant education == []
      invariant FirstKeywordSection(textLower, EducationKeywords) == FirstKeywordSection(textLower, EducationKeywords[k..])
    {
      var keyword := EducationKeywords[k];
      if Contains(textLower, keyword) {
        var m := KeywordSection(textLower, keyword);
        if m.Some? {
          var section := m.value;
          assert FirstKeywordSection(textLower, EducationKeywords) == Some(section);
          var degree := FindDegree(section);
          var university := FindUniversity(section);
          var year := FindYear(section);
          education := AppendFragments(degree, university, year);
          break;
        }
      }
      assert EducationKeywords[k..][1..] == EducationKeywords[k + 1..];
    }
  }

  /** `parse_resume_info(resume_text)`: each step finds one field; a field
      no step finds keeps its default (`None` or the empty list). */
  method ParseResumeInfo(text: string, ents: seq<Entity>, known: seq<string>) returns (r: CandidateRecord)
    ensures r.rawText == text
    ensures r.name == GuessName(text, ents)
    ensures r.email == FindEmail(text)
    ensures r.phone == FindPhone(text)
    ensures NoDuplicates(r.skills)
    ensures forall s :: s in r.skills <==> s in FoundSkills(Lower(text), known)
    ensures r.experience == ExperienceSignals(Lower(text))
    ensures r.education == EducationOf(Lower(text))
  {
    // 1. name
    var name := ExtractName(text, ents);

    // 2. email and phone
    var email := FindEmail(text);
    var phone := FindPhone(text);

    // 3. skills
    var textLower := Lower(text);
    var skills := ExtractSkills(textLower, known);

    // 4. experience: one signal from the first mention of years of experience
    var experience: seq<string> := [];
    var mention := FindExperienceMention(textLower);
    if mention.Some? {
      experience := experience + [mention.value + " years experience"];
    }

    // 5. education
    var education := ExtractEducation(textLower);

    r := CandidateRecord(name, email, phone, skills, experience, education, text);
  }
}
