/** How the extractor's record feeds the scorer: the experience fragment the
    extractor writes is read back by the scorer as the same number. */
module Screening {
  import opened Text
  import opened ResumePatterns
  import opened ResumeParser
  import opened Scoring

  /** The candidate years the scorer sees for a parsed resume are the number
      of the first experience mention in its text, or 0 without one. */
  lemma ParsedExperienceYears(text: string)
    ensures FindExperienceMention(Lower(text)).None? ==> CandidateYears(ExperienceSignals(Lower(text))) == 0
    ensures FindExperienceMention(Lower(text)).Some? ==>
              CandidateYears(ExperienceSignals(Lower(text))) == ParseNat(FindExperienceMention(Lower(text)).value)
  {
    match FindExperienceMention(Lower(text))
    case None =>
    case Some(g) => CandidateYearsOfFragment(g);
  }
}
