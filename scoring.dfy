/** The weighted scorer (`score_resume`): four sub-scores computed from fixed
    decision rules, summed with weights 0.40 / 0.30 / 0.20 / 0.10, rounded to
    two decimals, and one reasoning sentence per criterion.

    The sentence-embedding model and `util.cos_sim` are one given function
    `sim`: the cosine similarity of the embeddings of two texts. */
module Scoring {
  import opened Text
  import opened JobDescription
  import opened Candidate

  /** Encode both texts with the embedding model, then take the cosine
      similarity of the two vectors. */
  type Similarity = (string, string) -> real

  const SkillWeight: real := 0.40
  const ExperienceWeight: real := 0.30
  const ResponsibilityWeight: real := 0.20
  const EducationWeight: real := 0.10

  /** A required skill is matched when its best similarity is strictly above this. */
  const MatchThreshold: real := 0.6

  /** The responsibility sub-score when there is nothing to compare. */
  const NeutralScore: real := 50.0

  /** The four sub-scores, each before weighting. */
  datatype Breakdown = Breakdown(skills: real, experience: real, responsibilities: real, education: real)

  // ----------------------------------------------------------------- skills

  /** `cosine_scores[i].max()`: the best similarity of `req` to any of the
      candidate's skills. */
  function BestSimilarity(req: string, cand: seq<string>, sim: Similarity): (m: real)
    requires |cand| > 0
    ensures forall j :: 0 <= j < |cand| ==> sim(req, cand[j]) <= m
    ensures exists j :: 0 <= j < |cand| && sim(req, cand[j]) == m
  {
    if |cand| == 1 then sim(req, cand[0])
    else
      var front := cand[..|cand| - 1];
      var m := BestSimilarity(req, front, sim);
      var x := sim(req, cand[|cand| - 1]);
      assert forall j :: 0 <= j < |front| ==> front[j] == cand[j];
      if x > m then x else m
  }

  /** The required skill `req` is matched by some candidate skill. */
  predicate SkillMatched(req: string, cand: seq<string>, sim: Similarity): (b: bool)
    requires |cand| > 0
    ensures b <==> exists j :: 0 <= j < |cand| && sim(req, cand[j]) > MatchThreshold
  {
    BestSimilarity(req, cand, sim) > MatchThreshold
  }

  /** `matched_jd_skills`: how many of `reqs` are matched. */
  function MatchedCount(reqs: seq<string>, cand: seq<string>, sim: Similarity): (n: nat)
    requires |cand| > 0
    ensures n <= |reqs|
  {
    if reqs == [] then 0
    else MatchedCount(reqs[..|reqs| - 1], cand, sim) + (if SkillMatched(reqs[|reqs| - 1], cand, sim) then 1 else 0)
  }

  /** `skill_match_score` */
  function SkillScore(reqs: seq<string>, cand: seq<string>, sim: Similarity): (r: real)
    ensures 0.0 <= r <= 100.0
  {
    if reqs == [] then 100.0
    else if cand == [] then 0.0
    else
      Percentage(MatchedCount(reqs, cand, sim), |reqs|);
      (MatchedCount(reqs, cand, sim) as real / |reqs| as real) * 100.0
  }

  // ------------------------------------------------------------- experience

  /** `(\d+)\s+years` (case-insensitive) at `p` of lower-cased text; the
      result is the digits of the group. */
  function YearsMentionAt(t: string, p: nat): (g: Option<string>)
    ensures g.Some? ==> g.value != [] && AllDigits(g.value) && PrefixAt(t, p, g.value)
  {
    if p >= |t| || !IsDigit(t[p]) then None
    else
      var d := RunEnd(t, p, IsDigit);
      var w := RunEnd(t, d, IsSpace);
      if w > d && PrefixAt(t, w, "years") then Some(t[p..d]) else None
  }

  /** `re.search(r"(\d+)\s+years", t)`: the group of the leftmost match. */
  function FindYearsMention(t: string): (g: Option<string>)
    ensures g.Some? ==> g.value != [] && AllDigits(g.value) && Contains(t, g.value)
    ensures g.None? <==> forall p :: 0 <= p <= |t| ==> YearsMentionAt(t, p).None?
    ensures g.Some? ==> exists q :: 0 <= q <= |t| && YearsMentionAt(t, q) == g && forall k :: 0 <= k < q ==> YearsMentionAt(t, k).None?
  {
    var at := p => YearsMentionAt(t, p);
    assert forall p :: at(p) == YearsMentionAt(t, p);
    FirstMatch(at, |t|)
  }

  /** `experience_years_in_resume`: the number in the first `<n> years` of the
      joined experience fragments, 0 when there are no fragments or no match. */
  function CandidateYears(experience: seq<string>): (n: nat)
    ensures experience == [] ==> n == 0
    ensures experience != [] && FindYearsMention(Lower(Join(experience, " "))).None? ==> n == 0
    ensures experience != [] && FindYearsMention(Lower(Join(experience, " "))).Some? ==>
              n == ParseNat(FindYearsMention(Lower(Join(experience, " "))).value)
  {
    if experience == [] then 0
    else
      match FindYearsMention(Lower(Join(experience, " ")))
      case None => 0
      case Some(g) => ParseNat(g)
  }

  /** `experience_score` */
  function ExperienceScore(years: nat, minYears: nat): (r: real)
    ensures 0.0 <= r <= 100.0
    ensures r == 100.0 <==> minYears == 0 || years >= minYears
  {
    if minYears > 0 then
      if years >= minYears then 100.0
      else
        var q := years as real / minYears as real;
        assert q * minYears as real == years as real;
        q * 100.0
    else 100.0
  }

  // ------------------------------------------------------- responsibilities

  /** `responsibility_score`: the scaled similarity of the joined
      responsibilities to the whole resume text, neutral without data. */
  function ResponsibilityScore(resp: seq<string>, rawText: string, sim: Similarity): (r: real)
    ensures resp == [] || rawText == [] ==> r == NeutralScore
    ensures 0.0 <= sim(Join(resp, " "), rawText) <= 1.0 ==> 0.0 <= r <= 100.0
  {
    if resp != [] && rawText != [] then sim(Join(resp, " "), rawText) * 100.0 else NeutralScore
  }

  // -------------------------------------------------------------- education

  /** Some required term occurs, ignoring case, in the education text. */
  predicate EducationMatched(terms: seq<string>, eduText: string) {
    exists i :: 0 <= i < |terms| && Contains(Lower(eduText), Lower(terms[i]))
  }

  /** `education_score` */
  function EducationScore(terms: seq<string>, eduText: string): (r: real)
    ensures r == 100.0 || r == 0.0
    ensures r == 100.0 <==> terms == [] || EducationMatched(terms, eduText)
  {
    if terms != [] then (if EducationMatched(terms, eduText) then 100.0 else 0.0) else 100.0
  }

  // ------------------------------------------------------------ aggregation

  /** The four sub-scores of `resume` against the requirements `jd`. */
  function Evaluate(resume: CandidateRecord, jd: JobRequirements, sim: Similarity): (b: Breakdown)
    ensures 0.0 <= b.skills <= 100.0 && 0.0 <= b.experience <= 100.0
    ensures b.education == 100.0 || b.education == 0.0
    ensures jd.responsibilities == [] || resume.rawText == [] ==> b.responsibilities == NeutralScore
    ensures (forall x, y :: 0.0 <= sim(x, y) <= 1.0) ==> 0.0 <= b.responsibilities <= 100.0
  {
    Breakdown(
      SkillScore(jd.skills, resume.skills, sim),
      ExperienceScore(CandidateYears(resume.experience), jd.experienceYears),
      ResponsibilityScore(jd.responsibilities, resume.rawText, sim),
      EducationScore(jd.education, Join(resume.education, " ")))
  }

  /** `total_score` before rounding. */
  function WeightedTotal(b: Breakdown): (r: real)
    ensures b.skills == b.experience == b.responsibilities == b.education ==> r == b.skills
  {
    b.skills * SkillWeight + b.experience * ExperienceWeight
      + b.responsibilities * ResponsibilityWeight + b.education * EducationWeight
  }

  /** `round(x, 2)`: the nearest multiple of 0.01, a tie going to the even
      multiple. */
  function Round2(x: real): (r: real)
    ensures -0.005 <= r - x <= 0.005
    ensures (r * 100.0).Floor as real == r * 100.0
    ensures (r - x == 0.005 || x - r == 0.005) ==> (r * 100.0).Floor % 2 == 0
  {
    var y := x * 100.0;
    var n := y.Floor;
    var f := y - n as real;
    var k := if f > 0.5 then n + 1 else if f < 0.5 then n else if n % 2 == 0 then n else n + 1;
    k as real / 100.0
  }

  // -------------------------------------------------------------- reasoning

  /** A sentence of the reasoning: non-empty and closed by a full stop. */
  predicate FullSentence(s: string) {
    s != [] && s[|s| - 1] == '.'
  }

  function SkillSentence(reqs: seq<string>, cand: seq<string>, sim: Similarity): (s: string)
    ensures FullSentence(s)
  {
    if reqs == [] then "No specific skills required in JD."
    else if cand == [] then "No skills found in resume to match against JD skills."
    else
      "Matched " + NatToString(MatchedCount(reqs, cand, sim)) + "/" + NatToString(|reqs|)
        + " key skills (" + IntToString(Trunc(SkillScore(reqs, cand, sim))) + "%)."
  }

  function ExperienceSentence(years: nat, minYears: nat): (s: string)
    ensures FullSentence(s)
  {
    if minYears > 0 then
      if years >= minYears then
        "Meets/Exceeds " + NatToString(minYears) + " years experience (" + NatToString(years) + " years found)."
      else
        "Has " + NatToString(years) + " years experience (requires " + NatToString(minYears) + ")."
    else "No minimum experience required in JD."
  }

  function ResponsibilitySentence(resp: seq<string>, rawText: string, sim: Similarity): (s: string)
    ensures FullSentence(s)
  {
    if resp != [] && rawText != [] then
      "Overall resume content aligns with responsibilities ("
        + IntToString(Trunc(ResponsibilityScore(resp, rawText, sim))) + "%)."
    else "Cannot assess responsibilities due to missing JD or resume content."
  }

  function EducationSentence(terms: seq<string>, eduText: string): (s: string)
    ensures FullSentence(s)
  {
    if terms != [] then
      "Education matches JD requirements (" + IntToString(Trunc(EducationScore(terms, eduText))) + "%)."
    else "No specific education required in JD."
  }

  /** `reasoning_parts`: one sentence per criterion, in the order skills,
      experience, responsibilities, education. */
  function Reasons(resume: CandidateRecord, jd: JobRequirements, sim: Similarity): (rs: seq<string>)
    ensures |rs| == 4
  {
    [SkillSentence(jd.skills, resume.skills, sim),
     ExperienceSentence(CandidateYears(resume.experience), jd.experienceYears),
     ResponsibilitySentence(jd.responsibilities, resume.rawText, sim),
     EducationSentence(jd.education, Join(resume.education, " "))]
  }

  // ----------------------------------------------------------------- scorer

  /** Block 1 of `score_resume`: count the required skills whose best
      similarity to a candidate skill is above the threshold. */
  method ScoreSkills(reqs: seq<string>, cand: seq<string>, sim: Similarity)
    returns (score: real, sentence: string)
    ensures score == SkillScore(reqs, cand, sim)
    ensures sentence == SkillSentence(reqs, cand, sim)
  {
    if reqs != [] {
      if cand != [] {
        var matched: nat := 0;
        for i := 0 to |reqs|
          invariant matched == MatchedCount(reqs[..i], cand, sim)
        {
          var best := BestSimilarity(reqs[i], cand, sim);
          if best > MatchThreshold {
            matched := matched + 1;
          }
          assert reqs[..i + 1][..i] == reqs[..i];
        }
        assert reqs[..|reqs|] == reqs;
        score := (matched as real / |reqs| as real) * 100.0;
        sentence := "Matched " + NatToString(matched) + "/" + NatToString(|reqs|)
                    + " key skills (" + IntToString(Trunc(score)) + "%).";
      } else {
        sentence := "No skills found in resume to match against JD skills.";
        score := 0.0;
      }
    } else {
      sentence := "No specific skills required in JD.";
      score := 100.0;
    }
  }

  /** The first part of block 2: the years read from the joined experience
      fragments. */
  method ResumeYears(experience: seq<string>) returns (years: nat)
    ensures years == CandidateYears(experience)
  {
    years := 0;
    if experience != [] {
      var t := Lower(Join(experience, " "));
      var m := FindYearsMention(t);
      if m.Some? {
        years := ParseNat(m.value);
      }
    }
  }

  /** Block 2 of `score_resume`: the candidate's years against the minimum. */
  method ScoreExperience(experience: seq<string>, minYears: nat)
    returns (score: real, sentence: string)
    ensures score == ExperienceScore(CandidateYears(experience), minYears)
    ensures sentence == ExperienceSentence(CandidateYears(experience), minYears)
  {
    var years := ResumeYears(experience);
    if minYears > 0 {
      if years >= minYears {
        score := 100.0;
        sentence := "Meets/Exceeds " + NatToString(minYears) + " years experience ("
                    + NatToString(years) + " years found).";
      } else {
        score := (years as real / minYears as real) * 100.0;
        sentence := "Has " + NatToString(years) + " years experience (requires "
                    + NatToString(minYears) + ").";
      }
    } else {
      score := 100.0;
      sentence := "No minimum experience required in JD.";
    }
  }

  /** Block 3 of `score_resume`: the joined responsibilities against the
      whole resume text. */
  method ScoreResponsibilities(resp: seq<string>, rawText: string, sim: Similarity)
    returns (score: real, sentence: string)
    ensures score == ResponsibilityScore(resp, rawText, sim)
    ensures sentence == ResponsibilitySentence(resp, rawText, sim)
  {
    if resp != [] && rawText != [] {
      var s := sim(Join(resp, " "), rawText);
      score := s * 100.0;
      sentence := "Overall resume content aligns with responsibilities ("
                  + IntToString(Trunc(score)) + "%).";
    } else {
      sentence := "Cannot assess responsibilities due to missing JD or resume content.";
      score := NeutralScore;
    }
  }

  /** Block 4 of `score_resume`: the first required term found in the
      education text decides. */
  method ScoreEducation(terms: seq<string>, eduText: string)
    returns (score: real, sentence: string)
    ensures score == EducationScore(terms, eduText)
    ensures sentence == EducationSentence(terms, eduText)
  {
    if terms != [] {
      var matchedEdu: nat := 0;
      for k := 0 to |terms|
        invariant matchedEdu == 0
        invariant forall i :: 0 <= i < k ==> !Contains(Lower(eduText), Lower(terms[i]))
      {
        if Contains(Lower(eduText), Lower(terms[k])) {
          matchedEdu := 1;
          break;
        }
      }
      assert matchedEdu == 1 <==> EducationMatched(terms, eduText);
      score := matchedEdu as real * 100.0;
      sentence := "Education matches JD requirements (" + IntToString(Trunc(score)) + "%).";
    } else {
      score := 100.0;
      sentence := "No specific education required in JD.";
    }
  }

  /** `score_resume(parsed_resume_data, job_description_text, sbert_model)`:
      the rounded weighted total and the reasoning sentences joined by
      spaces. */
  method ScoreResume(resume: CandidateRecord, jdText: string, sim: Similarity)
    returns (finalScore: real, reasoning: string)
    ensures finalScore == Round2(WeightedTotal(Evaluate(resume, ExtractJdRequirements(jdText), sim)))
    ensures reasoning == Join(Reasons(resume, ExtractJdRequirements(jdText), sim), " ")
  {
    var jd := ExtractJdRequirements(jdText);
    finalScore, reasoning := ScoreAgainst(resume, jd, sim);
  }

  /** The body of `score_resume` once the requirements are extracted. */
  method ScoreAgainst(resume: CandidateRecord, jd: JobRequirements, sim: Similarity)
    returns (finalScore: real, reasoning: string)
    ensures finalScore == Round2(WeightedTotal(Evaluate(resume, jd, sim)))
    ensures reasoning == Join(Reasons(resume, jd, sim), " ")
  {
    var total := 0.0;

    var skillScore, r1 := ScoreSkills(jd.skills, resume.skills, sim);
    total := total + skillScore * SkillWeight;
    var experienceScore, r2 := ScoreExperience(resume.experience, jd.experienceYears);
    total := total + experienceScore * ExperienceWeight;
    var responsibilityScore, r3 := ScoreResponsibilities(jd.responsibilities, resume.rawText, sim);
    total := total + responsibilityScore * ResponsibilityWeight;
    var educationScore, r4 := ScoreEducation(jd.education, Join(resume.education, " "));
    total := total + educationScore * EducationWeight;

    var b := Breakdown(skillScore, experienceScore, responsibilityScore, educationScore);
    assert b == Evaluate(resume, jd, sim);
    assert total == WeightedTotal(b);
    finalScore := Round2(total);
    reasoning := Join([r1, r2, r3, r4], " ");
  }

  // ----------------------------------------------------------------- lemmas

  /** Every required skill is matched exactly when the count is the number
      of required skills. */
  lemma {:induction false} MatchedCountAll(reqs: seq<string>, cand: seq<string>, sim: Similarity)
    requires |cand| > 0
    ensures MatchedCount(reqs, cand, sim) == |reqs| <==>
            forall i :: 0 <= i < |reqs| ==> SkillMatched(reqs[i], cand, sim)
  {
    if reqs != [] {
      var front := reqs[..|reqs| - 1];
      MatchedCountAll(front, cand, sim);
      assert forall i :: 0 <= i < |front| ==> front[i] == reqs[i];
    }
  }

  /** No required skill is matched exactly when the count is zero. */
  lemma {:induction false} MatchedCountNone(reqs: seq<string>, cand: seq<string>, sim: Similarity)
    requires |cand| > 0
    ensures MatchedCount(reqs, cand, sim) == 0 <==>
            forall i :: 0 <= i < |reqs| ==> !SkillMatched(reqs[i], cand, sim)
  {
    if reqs != [] {
      var front := reqs[..|reqs| - 1];
      MatchedCountNone(front, cand, sim);
      assert forall i :: 0 <= i < |front| ==> front[i] == reqs[i];
    }
  }

  /** `m / n * 100` for `m <= n` is a percentage, at its ends exactly when
      `m` is. */
  lemma Percentage(m: nat, n: nat)
    requires 0 < n && m <= n
    ensures 0.0 <= (m as real / n as real) * 100.0 <= 100.0
    ensures (m as real / n as real) * 100.0 == 100.0 <==> m == n
    ensures (m as real / n as real) * 100.0 == 0.0 <==> m == 0
  {
    var q := m as real / n as real;
    assert q * n as real == m as real;
    if m == n {
      assert q == n as real / n as real == 1.0;
    }
  }

  /** The skill sub-score is 100 exactly when nothing is required or every
      requirement is matched, and 0 exactly when something
      is required and nothing is matched (in particular when the candidate
      lists no skills). */
  lemma SkillScoreRange(reqs: seq<string>, cand: seq<string>, sim: Similarity)
    ensures SkillScore(reqs, cand, sim) == 100.0 <==>
            reqs == [] || (cand != [] && forall i :: 0 <= i < |reqs| ==> SkillMatched(reqs[i], cand, sim))
    ensures SkillScore(reqs, cand, sim) == 0.0 <==>
            reqs != [] && (cand == [] || forall i :: 0 <= i < |reqs| ==> !SkillMatched(reqs[i], cand, sim))
  {
    if reqs != [] && cand != [] {
      MatchedCountAll(reqs, cand, sim);
      MatchedCountNone(reqs, cand, sim);
      Percentage(MatchedCount(reqs, cand, sim), |reqs|);
    }
  }

  /** More years never lower the experience sub-score. */
  lemma ExperienceScoreMonotone(y1: nat, y2: nat, minYears: nat)
    requires y1 <= y2
    ensures ExperienceScore(y1, minYears) <= ExperienceScore(y2, minYears)
  {
    if 0 < minYears && y2 < minYears {
      var q1 := y1 as real / minYears as real;
      var q2 := y2 as real / minYears as real;
      assert q1 * minYears as real == y1 as real;
      assert q2 * minYears as real == y2 as real;
      assert q2 - q1 == (y2 - y1) as real / minYears as real;
      assert q1 <= q2;
    }
  }

  /** The weights sum to one, so the weighted total of sub-scores in
      [0, 100] is again in [0, 100]. */
  lemma WeightedTotalRange(b: Breakdown)
    requires 0.0 <= b.skills <= 100.0 && 0.0 <= b.experience <= 100.0
    requires 0.0 <= b.responsibilities <= 100.0 && 0.0 <= b.education <= 100.0
    ensures SkillWeight + ExperienceWeight + ResponsibilityWeight + EducationWeight == 1.0
    ensures 0.0 <= WeightedTotal(b) <= 100.0
  {
  }

  /** Rounding keeps a value of [0, 100] inside [0, 100]. */
  lemma Round2Range(x: real)
    requires 0.0 <= x <= 100.0
    ensures 0.0 <= Round2(x) <= 100.0
  {
    var y := x * 100.0;
    var n := y.Floor;
    assert 0 <= n <= 10000;
    if n == 10000 {
      assert y == 10000.0;
    }
  }

  /** A value that already has two decimals is left as it is. */
  lemma Round2Exact(k: int)
    ensures Round2(k as real / 100.0) == k as real / 100.0
  {
    var y := (k as real / 100.0) * 100.0;
    assert y == k as real;
    assert y.Floor == k;
  }

  /** Rounding is monotone. */
  lemma Round2Monotone(x1: real, x2: real)
    requires x1 <= x2
    ensures Round2(x1) <= Round2(x2)
  {
    var y1, y2 := x1 * 100.0, x2 * 100.0;
    assert y1 <= y2;
    assert y1.Floor <= y2.Floor;
  }

  /** `score_resume` returns a score in [0, 100] whenever every similarity
      the embedding model reports lies in [0, 1]. */
  lemma ScoreWithinRange(resume: CandidateRecord, jd: JobRequirements, sim: Similarity)
    requires forall a, b :: 0.0 <= sim(a, b) <= 1.0
    ensures 0.0 <= Round2(WeightedTotal(Evaluate(resume, jd, sim))) <= 100.0
  {
    var b := Evaluate(resume, jd, sim);
    WeightedTotalRange(b);
    Round2Range(WeightedTotal(b));
  }

  /** Cosine similarity can be negative and nothing clamps it: a candidate
      with no skills, no experience and no education, whose text is opposite
      to the responsibilities, scores -20. */
  lemma NegativeSimilarityScore()
    ensures Round2(WeightedTotal(Evaluate(EmptyRecord("r"), JobRequirements(["x"], ["y"], 1, ["z"]),
                                          (a: string, b: string) => -1.0))) == -20.0
  {
    var jd := JobRequirements(["x"], ["y"], 1, ["z"]);
    var sim := (a: string, b: string) => -1.0;
    assert !Contains(Lower(Join([], " ")), Lower("z"));
    assert !EducationMatched(jd.education, Join([], " "));
    var b := Evaluate(EmptyRecord("r"), jd, sim);
    assert b == Breakdown(0.0, 0.0, -100.0, 0.0);
    assert WeightedTotal(b) == -2000 as real / 100.0;
    Round2Exact(-2000);
  }

  /** The fragment the resume extractor writes for an experience mention,
      `"<digits> years experience"`, gives the scorer back that number. */
  lemma CandidateYearsOfFragment(g: string)
    requires g != [] && AllDigits(g)
    ensures CandidateYears([g + " years experience"]) == ParseNat(g)
  {
    var t := g + " years experience";
    assert Join([t], " ") == t;
    FragmentLowered(g);
    FragmentMention(g);
    var at := p => YearsMentionAt(t, p);
    assert at(0) == Some(g);
    assert FirstHit(at, 0, |t|) == Some(0);
  }

  lemma FragmentLowered(g: string)
    requires AllDigits(g)
    ensures Lower(g + " years experience") == g + " years experience"
  {
    var x := g + " years experience";
    forall i | 0 <= i < |x| ensures !IsUpper(x[i]) {
      if i < |g| {
        assert x[i] == g[i];
      }
    }
  }

  lemma FragmentMention(g: string)
    requires g != [] && AllDigits(g)
    ensures YearsMentionAt(g + " years experience", 0) == Some(g)
  {
    var t := g + " years experience";
    assert t[..|g|] == g;
    var tail := t[|g|..];
    assert tail == " years experience";
    assert !IsDigit(t[|g|]);
    var d := RunEnd(t, 0, IsDigit);
    assert d == |g|;
    assert !IsSpace(t[|g| + 1]);
    var w := RunEnd(t, d, IsSpace);
    assert w == |g| + 1;
    assert t[w..w + 5] == tail[1..6] == "years";
  }
}
