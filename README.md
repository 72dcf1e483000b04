# Resume screener: extractor, requirement miner and scorer

This project models the core of a resume screening service:

- **Resume extractor** (`parse_resume_info`) turns one resume text into a candidate record: name, email, phone, the known skills it mentions, one experience fragment and up to three education fragments.
- **Skills vocabulary** (`load_common_skills` and the sort of `KNOWN_SKILLS`) is the list of skills the extractor looks for.
- **Requirement miner** (`_extract_jd_requirements`) reads four things from a job description: required skills, responsibilities, education terms and minimum years of experience.
- **Scorer** (`score_resume`) combines four weighted sub-scores into a final score rounded to two decimals, and joins four reasoning sentences.

Modules:

- `Text` (text.dfy): character classes, `lower`/`strip`/`split`/`join`, decimal conversion, substring search, and `list(set)`.
- `JobDescription` (requirements.dfy): the requirement miner.
- `Candidate` (candidate.dfy): the candidate record and named entities.
- `ResumePatterns` (patterns.dfy): the extractor's regular expressions. Each one is a finder that starts at the leftmost position and makes the choices Python's backtracking matcher keeps.
- `ResumeParser` (resume_parser.dfy): the extractor.
- `Vocabulary` (vocabulary.dfy): loading the skills file and the in-place sort into longest-first order.
- `Scoring` (scoring.dfy): the sub-scores, their weights, the rounding and the reasoning sentences. Each block of `score_resume` is a method proved equal to a specification function. The functions' contracts and the lemmas about them state the ranges, the ends of each range and monotonicity.
- `Screening` (pipeline.dfy): how the extractor's experience fragment is read back by the scorer.

Inputs:

- The sentence-embedding model and `util.cos_sim` together are one function `sim: (string, string) -> real`.
- The entity recogniser's output is an input sequence of `Entity(kind, text)`.
- The skills file is its content as `Option<string>`; `None` is a missing file.

## Model

| member | source | states |
|---|---|---|
| JobDescription.ExtractJdRequirements | resume_screener_service/utils/scoring_logic.py:22-62 | every mined skill, responsibility and education item is non-empty, stripped, free of bullets and separators, and lower-case; a section whose header never occurs gives an empty list; the minimum years is the number of the first experience requirement, or 0 |
| JobDescription.CaptureSection | resume_screener_service/utils/scoring_logic.py:40-41 | a section is captured exactly when one of its header alternatives occurs; the captured text is the slice of the description between the two bounds of `SectionBounds`, so it is drawn from the description |
| JobDescription.SectionBounds | resume_screener_service/utils/scoring_logic.py:40 | bounds exist exactly when a header occurs; the body starts after the leftmost header, its optional `:` and the whitespace that follows, and ends at the first blank line, new `Heading:` line or end of text after that start |
| JobDescription.ColonEnd | resume_screener_service/utils/scoring_logic.py:40 | the optional `:` after a header is consumed exactly when the next character is a colon; otherwise the position stays where the header ended |
| JobDescription.SectionItems | resume_screener_service/utils/scoring_logic.py:42-43 | each item after removing `*`, `-` and the bullet, and splitting on `,` `;` and newline, is non-empty and stripped (the `if s.strip()` filter), and uses only characters of the section |
| JobDescription.CleanSection | resume_screener_service/utils/scoring_logic.py:42 | removing `*`, `-` and the bullet and stripping leaves only characters of the captured text and no bullet character |
| JobDescription.ItemsOf | resume_screener_service/utils/scoring_logic.py:41-43 | no captured section gives no items; a captured section gives its `SectionItems` |
| JobDescription.SectionItemsKeeps | resume_screener_service/utils/scoring_logic.py:42-43 | every piece of the cleaned, split section that is not blank is kept, stripped, in its place: the items are those of the pieces before it, then it, then those of the pieces after it |
| JobDescription.SectionItemsSingle | resume_screener_service/utils/scoring_logic.py:42-43 | a section that is one clean item yields exactly that item |
| JobDescription.SectionItemsPair | resume_screener_service/utils/scoring_logic.py:42-43 | two clean items joined by `,`, `;` or a newline yield both, in order |
| JobDescription.RequiredYears | resume_screener_service/utils/scoring_logic.py:52 | the digits of the leftmost match of the minimum-experience pattern; none exactly when no position matches |
| JobDescription.MinExperienceYears | resume_screener_service/utils/scoring_logic.py:52-54 | the minimum is the number written by the digits of the first match of the pattern, and 0 when nothing matches |
| JobDescription.LowerItems | resume_screener_service/utils/scoring_logic.py:35-60 | items mined from the lower-cased description contain no upper-case letter |
| Scoring.BestSimilarity | resume_screener_service/utils/scoring_logic.py:98 | the row maximum: at least every candidate skill's similarity, and equal to one of them |
| Scoring.SkillMatched | resume_screener_service/utils/scoring_logic.py:97-100 | a required skill counts exactly when some candidate skill is more similar than 0.6 |
| Scoring.MatchedCountAll | resume_screener_service/utils/scoring_logic.py:95-102 | the count equals the number of required skills exactly when every one is matched |
| Scoring.MatchedCountNone | resume_screener_service/utils/scoring_logic.py:95-102 | the count is zero exactly when no required skill is matched |
| Scoring.SkillScore | resume_screener_service/utils/scoring_logic.py:84-109 | the skill score lies in [0, 100] |
| Scoring.SkillScoreRange | resume_screener_service/utils/scoring_logic.py:84-109 | the skill score is 100 exactly when nothing is required or everything is matched, and 0 exactly when something is required and the resume has no skills or none matches |
| Scoring.ScoreSkills | resume_screener_service/utils/scoring_logic.py:84-111 | the loop's count and the three branches give the skill score and the sentence `SkillSentence` |
| Scoring.ExperienceScore | resume_screener_service/utils/scoring_logic.py:121-131 | the experience score lies in [0, 100] and is 100 exactly when no minimum is set or the candidate meets it |
| Scoring.ExperienceScoreMonotone | resume_screener_service/utils/scoring_logic.py:121-131 | more years never lower the experience score |
| Scoring.FindYearsMention | resume_screener_service/utils/scoring_logic.py:117 | the group of `(\d+)\s+years` is a non-empty run of digits that occurs in the text; it is the group at the leftmost matching position; there is none exactly when no position matches |
| Scoring.CandidateYears | resume_screener_service/utils/scoring_logic.py:114-119 | no experience fragments, or no `<n> years` in their lower-cased join, give 0 years; otherwise the years are the number of the leftmost mention's digits |
| Scoring.ResumeYears | resume_screener_service/utils/scoring_logic.py:114-119 | the statements of the block compute `CandidateYears` |
| Scoring.ScoreExperience | resume_screener_service/utils/scoring_logic.py:113-131 | with the years `ResumeYears` reads, the three branches give the experience score of those years and the sentence `ExperienceSentence` |
| Scoring.CandidateYearsOfFragment | resume_screener_service/utils/scoring_logic.py:114-119 | a fragment `<digits> years experience` gives back exactly the number of its digits |
| Scoring.ResponsibilityScore | resume_screener_service/utils/scoring_logic.py:135-149 | with no responsibilities or no resume text the score is the neutral 50, whatever the similarity; with a similarity in [0, 1] the score lies in [0, 100] |
| Scoring.ScoreResponsibilities | resume_screener_service/utils/scoring_logic.py:135-151 | score and sentence of the responsibility block |
| Scoring.EducationScore | resume_screener_service/utils/scoring_logic.py:153-165 | the education score is 100 or 0; it is 100 exactly when nothing is required or some required term occurs, ignoring case, in the joined education fragments |
| Scoring.ScoreEducation | resume_screener_service/utils/scoring_logic.py:153-167 | the loop with its early exit gives the education score and the sentence `EducationSentence` |
| Scoring.WeightedTotalRange | resume_screener_service/utils/scoring_logic.py:80-167 | the weights 0.40, 0.30, 0.20 and 0.10 sum to one, so sub-scores in [0, 100] give a total in [0, 100] |
| Scoring.WeightedTotal | resume_screener_service/utils/scoring_logic.py:111-167 | four equal sub-scores give that score back: the weights 0.40, 0.30, 0.20 and 0.10 sum to one |
| Scoring.Evaluate | resume_screener_service/utils/scoring_logic.py:80-167 | the skill and experience sub-scores lie in [0, 100]; the education sub-score is 100 or 0; the responsibility sub-score is the neutral 50 without responsibilities or resume text, and lies in [0, 100] when every similarity lies in [0, 1] |
| Scoring.SkillSentence | resume_screener_service/utils/scoring_logic.py:103-108 | each of the three skill sentences is non-empty and ends with a full stop |
| Scoring.ExperienceSentence | resume_screener_service/utils/scoring_logic.py:125-131 | each of the three experience sentences is non-empty and ends with a full stop |
| Scoring.ResponsibilitySentence | resume_screener_service/utils/scoring_logic.py:146-148 | each of the two responsibility sentences is non-empty and ends with a full stop |
| Scoring.EducationSentence | resume_screener_service/utils/scoring_logic.py:162-165 | each of the two education sentences is non-empty and ends with a full stop |
| Scoring.Reasons | resume_screener_service/utils/scoring_logic.py:81-165 | exactly four sentences are collected, one per block |
| Scoring.Round2 | resume_screener_service/utils/scoring_logic.py:169 | rounding to two decimals moves a value by at most 0.005 and lands on a multiple of 0.01; at a tie it lands on the even multiple |
| Scoring.Round2Range | resume_screener_service/utils/scoring_logic.py:169 | rounding keeps a value of [0, 100] within [0, 100] |
| Scoring.Round2Exact | resume_screener_service/utils/scoring_logic.py:169 | a value with two decimals is left unchanged |
| Scoring.Round2Monotone | resume_screener_service/utils/scoring_logic.py:169 | rounding preserves order |
| Scoring.ScoreWithinRange | resume_screener_service/utils/scoring_logic.py:64-172 | the final score lies in [0, 100], as the docstring promises, whenever every similarity lies in [0, 1] |
| Scoring.NegativeSimilarityScore | resume_screener_service/utils/scoring_logic.py:144-151 | a negative cosine similarity is not clamped: an empty resume against a description with one requirement of each kind and similarity -1 scores -20 |
| Scoring.ScoreAgainst | resume_screener_service/utils/scoring_logic.py:80-172 | the final score is the rounded weighted total of the four sub-scores, and the reasoning is the four sentences joined by spaces |
| Scoring.ScoreResume | resume_screener_service/utils/scoring_logic.py:64-172 | `score_resume`: the requirements are mined from the description, then scored as above |
| ResumePatterns.EmailParts | resume_screener_service/utils/resume_parser.py:71 | the positions of a match: local-part characters from the start to the `@`, domain characters up to the dot, and two or more letters after it |
| ResumePatterns.EmailAt | resume_screener_service/utils/resume_parser.py:71 | a match at a position is an address of the email pattern's shape (local part, `@`, domain, dot, top-level domain of two or more letters) that starts there |
| ResumePatterns.EmailAtLongest | resume_screener_service/utils/resume_parser.py:71 | the match at a position is the longest address starting there, as the greedy parts give; when the pattern fails at a position, no address starts there |
| ResumePatterns.FindEmail | resume_screener_service/utils/resume_parser.py:71-76 | the first email is an address of that shape that occurs in the text; it is the match at the leftmost position that matches, every earlier position failing; there is none exactly when no position matches |
| ResumePatterns.PhoneAt | resume_screener_service/utils/resume_parser.py:72 | a phone match at a position yields its groups joined: all digits, at least ten of them |
| ResumePatterns.FindPhone | resume_screener_service/utils/resume_parser.py:72-81 | the joined groups of the first phone match are all digits, at least ten of them; it is the match at the leftmost matching position; there is none exactly when no position matches |
| ResumePatterns.PhoneCountryCodeBacktracks | resume_screener_service/utils/resume_parser.py:72-81 | on `+919876543210` the three-digit country code is given back and the phone is `919876543210` |
| ResumePatterns.ExperienceMentionAt | resume_screener_service/utils/resume_parser.py:108 | a mention's group is a non-empty run of digits starting at the position, and it is the whole run: the next character is no digit |
| ResumePatterns.FindExperienceMention | resume_screener_service/utils/resume_parser.py:108 | the group of the first years-of-experience mention is a non-empty run of digits found in the text; it is the group at the leftmost matching position; there is none exactly when no position matches |
| ResumePatterns.FindExperienceMentionAtStart | resume_screener_service/utils/resume_parser.py:108 | a mention at the start of the text is the one found |
| ResumePatterns.KeywordSection | resume_screener_service/utils/resume_parser.py:121-123 | a section exists exactly when the keyword occurs, and it starts where the keyword does |
| ResumePatterns.KeywordSectionExtent | resume_screener_service/utils/resume_parser.py:121-123 | the section starts at the first occurrence of the keyword and ends at the first place after the following whitespace where a blank line, the end of the text or a final newline comes; a blank line is kept in the section |
| ResumePatterns.DegreeAt | resume_screener_service/utils/resume_parser.py:126 | the degree pattern tried at a position gives a group that is a non-empty run of letters and whitespace occurring in the section |
| ResumePatterns.UniversityAt | resume_screener_service/utils/resume_parser.py:127 | the university pattern tried at a position gives, from whichever alternative matched, a group that is a non-empty run of letters and whitespace occurring in the section |
| ResumePatterns.YearAt | resume_screener_service/utils/resume_parser.py:128 | a year match at a position is four digits starting with 19 or 20, found at that position |
| ResumePatterns.FindDegree | resume_screener_service/utils/resume_parser.py:126-136 | the first degree subject is a non-empty run of letters and whitespace that occurs in the section; it is the subject at the leftmost matching position; there is none exactly when no position matches |
| ResumePatterns.FindUniversity | resume_screener_service/utils/resume_parser.py:127-140 | the first institution group is a non-empty run of letters and whitespace that occurs in the section; it is the group at the leftmost matching position; there is none exactly when no position matches |
| ResumePatterns.FindYear | resume_screener_service/utils/resume_parser.py:128-143 | the first year is four digits starting with 19 or 20 and occurs in the text; it is the year at the leftmost matching position; there is none exactly when no position matches |
| ResumeParser.FirstPersonName | resume_screener_service/utils/resume_parser.py:51-55 | the first PERSON entity of two or more words; none exactly when no entity qualifies |
| ResumeParser.FirstNameLike | resume_screener_service/utils/resume_parser.py:64-67 | the first line with no `@`, no ten-digit run and fewer than five words; none exactly when no line qualifies |
| ResumeParser.GuessName | resume_screener_service/utils/resume_parser.py:51-67 | a qualifying PERSON entity gives the name; only when there is none does the name come from the first three non-blank lines |
| ResumeParser.NameShape | resume_screener_service/utils/resume_parser.py:51-67 | the name is a qualifying entity's text, or, only when there is none, a stripped name-like line among the first three non-blank lines; no name exactly when neither exists |
| ResumeParser.ExtractName | resume_screener_service/utils/resume_parser.py:51-67 | the two loops with early exits compute the name heuristic |
| ResumeParser.FoundSkills | resume_screener_service/utils/resume_parser.py:86-90 | every found skill is a vocabulary entry whose lower-cased form occurs in the lower-cased resume |
| ResumeParser.FoundSkillsMembers | resume_screener_service/utils/resume_parser.py:86-91 | a skill is found exactly when it is a vocabulary entry whose lower-cased form occurs in the lower-cased resume |
| ResumeParser.FoundSkillsOrderFree | resume_screener_service/utils/resume_parser.py:86-91 | the found skills do not depend on the vocabulary's order, so the longest-first sort changes nothing about which skills are found |
| ResumeParser.EmptySkillAlwaysFound | resume_screener_service/utils/resume_parser.py:86-91 | an empty vocabulary entry (from a blank line of the skills file) is found in every resume |
| ResumeParser.ExtractSkills | resume_screener_service/utils/resume_parser.py:86-91 | the skills are the found set, listed once each |
| ResumeParser.ExperienceSignals | resume_screener_service/utils/resume_parser.py:108-110 | the extractor writes at most one experience fragment |
| ResumeParser.ExperienceSignalsShape | resume_screener_service/utils/resume_parser.py:108-110 | at most one experience fragment; none exactly when no mention matches; otherwise `<digits> years experience`, with the digits the group of the leftmost mention |
| ResumeParser.ExperienceSignalsAtStart | resume_screener_service/utils/resume_parser.py:108-110 | a mention at the start of the text gives the fragment `<its digits> years experience` |
| ResumeParser.ExperienceWholeNumber | resume_screener_service/utils/resume_parser.py:108 | in `15 years experience` the mention at the start has the group `15`, not `5` |
| ResumeParser.FirstKeywordSection | resume_screener_service/utils/resume_parser.py:118-123 | no education section exactly when no education keyword occurs |
| ResumeParser.FirstKeywordChosen | resume_screener_service/utils/resume_parser.py:118-144 | the first keyword present, in list order, chooses the section |
| ResumeParser.EducationSignals | resume_screener_service/utils/resume_parser.py:130-143 | a section gives no fragments exactly when none of the degree, university and year patterns matches in it |
| ResumeParser.EducationOf | resume_screener_service/utils/resume_parser.py:117-144 | at most three education fragments, and fragments only when one of the education keywords occurs in the text |
| ResumeParser.EducationSignalsShape | resume_screener_service/utils/resume_parser.py:130-143 | at most three fragments, tagged Degree, University, Year in that order, each tag at most once; the year fragment holds four digits starting with 19 or 20 |
| ResumeParser.ExtractEducation | resume_screener_service/utils/resume_parser.py:117-144 | the keyword loop with its early exit gives the fragments of the first keyword's section |
| ResumeParser.ParseResumeInfo | resume_screener_service/utils/resume_parser.py:32-146 | the record keeps the raw text and holds the name heuristic, the first email, the first phone, the found skills once each, the experience fragment and the education fragments |
| Vocabulary.NormalizeSkill | resume_screener_service/utils/resume_parser.py:21 | a normalised line has no upper-case letter and no surrounding whitespace |
| Vocabulary.FileLines | resume_screener_service/utils/resume_parser.py:20 | an empty file has no lines; each line is free of newlines and uses only characters of the file |
| Vocabulary.SkillSet | resume_screener_service/utils/resume_parser.py:17-21 | every skill a file contributes is lower-case |
| Vocabulary.SkillSetMembers | resume_screener_service/utils/resume_parser.py:17-21 | a skill is in the set exactly when some line of the file normalises to it |
| Vocabulary.CollectSkills | resume_screener_service/utils/resume_parser.py:17-21 | the loop over the file's lines collects exactly the set of normalised lines |
| Vocabulary.LoadCommonSkills | resume_screener_service/utils/resume_parser.py:16-24 | a missing file gives no skills; otherwise the skills are exactly the normalised lines, each once, all lower-case |
| Vocabulary.SortByLengthDescending | resume_screener_service/utils/resume_parser.py:29 | the array is a permutation of its old contents, ordered longest first |
| Vocabulary.LoadKnownSkills | resume_screener_service/utils/resume_parser.py:26-29 | `KNOWN_SKILLS` holds exactly the file's skills, each once, longest first |
| Text.SetToSeq | resume_screener_service/utils/resume_parser.py:24 | `list(set)` lists every element of the set exactly once and nothing else |
| Text.Lower | resume_screener_service/utils/scoring_logic.py:35 | `str.lower` keeps the length, maps each character through the ASCII lower-case map, and leaves no upper-case letter |
| Text.LowerIdempotent | resume_screener_service/utils/scoring_logic.py:158 | lower-casing twice is lower-casing once: the second `.lower()` on terms mined from the lower-cased description changes nothing |
| Text.FindContains | resume_screener_service/utils/resume_parser.py:120-121 | the `in` test that guards the section search succeeds exactly when searching from the start finds a position |
| Text.Strip | resume_screener_service/utils/resume_parser.py:60 | the result has no surrounding whitespace, uses only characters of the input, and is empty exactly when the input is all whitespace |
| Text.StripSlice | resume_screener_service/utils/resume_parser.py:60 | the result is a slice of the input with only whitespace before and after it |
| Text.StripTrimmed | resume_screener_service/utils/resume_parser.py:60 | a string without surrounding whitespace is left as it is |
| Text.RemoveChar | resume_screener_service/utils/scoring_logic.py:42 | `replace(c, '')` leaves no `c`, uses only the input's characters, and leaves a text without `c` unchanged |
| Text.RemoveCharConcat | resume_screener_service/utils/scoring_logic.py:42 | deleting a character works piece by piece over a concatenation |
| Text.SplitOn | resume_screener_service/utils/scoring_logic.py:43 | `re.split` on a character class gives at least one piece, and every piece uses only characters of the text and no separator |
| Text.SplitOnWhole | resume_screener_service/utils/scoring_logic.py:43 | a text without separators splits into just itself |
| Text.SplitOnConcat | resume_screener_service/utils/scoring_logic.py:43 | a separator cuts the text into the pieces before it followed by the pieces after it |
| Text.StrippedNonEmptyConcat | resume_screener_service/utils/scoring_logic.py:43 | the `if s.strip()` filter works piece by piece over a concatenation |
| Text.StrippedNonEmptyKeeps | resume_screener_service/utils/scoring_logic.py:43 | a piece that is not blank is kept, stripped, between the results of the pieces before and after it |
| Text.StrippedNonEmptyDrops | resume_screener_service/utils/scoring_logic.py:43 | a blank piece is dropped |
| Text.StrippedNonEmptyTrimmed | resume_screener_service/utils/scoring_logic.py:43 | pieces that are already stripped and non-empty all pass unchanged |
| Text.SplitJoin | resume_screener_service/utils/resume_parser.py:60 | splitting on a character and joining with it gives the text back |
| Text.Join | resume_screener_service/utils/scoring_logic.py:70-71 | `" ".join` of no fragments is the empty text and of one fragment is that fragment; `Text.SplitJoin` is its inverse |
| Text.WordCount | resume_screener_service/utils/resume_parser.py:53 | `len(s.split())` is at most the length of the text and is 0 exactly when the text is all whitespace |
| Text.Trunc | resume_screener_service/utils/scoring_logic.py:103 | `int(x)` truncates toward zero: the result is the integer nearest to the value in the direction of 0, less than one away |
| Text.ParseNatToString | resume_screener_service/utils/scoring_logic.py:103-128 | the decimal numbers written into the reasoning sentences read back as the same numbers |
| Screening.ParsedExperienceYears | resume_screener_service/utils/resume_parser.py:108-110 | the years the scorer reads from a parsed resume are the number of the text's first experience mention, or 0 without one |

## Left out

- Unicode: `str.lower`, `str.strip`, `str.split` and the classes `\s`, `\d`, `\w` and `\b` are modelled over ASCII only. ASCII whitespace is space, tab, newline, carriage return, vertical tab, form feed and the separators 0x1C to 0x1F, as in Python. Non-ASCII letters, digits and whitespace (such as U+0085 and U+00A0) are treated as ordinary characters.
- Floating point: scores are exact reals. `Scoring.Round2` rounds half to even on the exact value, not on the binary double Python rounds.
- The sentence-embedding model, `util.cos_sim` and tensor handling are the function `sim`. The model is not stated to clamp or bound it, because the code does not; see `Scoring.NegativeSimilarityScore`.
- The spaCy pipeline and its model download are the input entity sequence. The job-description spaCy model loaded in scoring_logic.py is never used there.
- File I/O: opening and reading the skills file is its content passed as `Option<string>`. Universal-newline translation of `\r\n` is not modelled; lines split on `\n` only.
- The experience-section loop at resume_parser.py:95-103 is dead code: its result is never stored. It is not modelled.
- `resume_name` at scoring_logic.py:72 is read but never used, so it is not modelled.
- The `__main__` demonstration blocks of both files are not part of this model. Their file writes and printing are I/O, and only their sample phone number appears, in `ResumePatterns.PhoneCountryCodeBacktracks`. The service's web front end and database layer are not part of this model either.
- Vocabulary.SortByLengthDescending: Python's sort is stable. The model proves longest-first order and permutation but not stability, because `list(set)` gives an arbitrary order to begin with.
- Text.SetToSeq: the order in which `list` walks a set depends on hashing. The model lets any order happen and states only contents and uniqueness.
- The `(?:of)?\s*` and `\s+` parts of the experience patterns, and the lazy parts of the section, degree and university patterns, are decided by the finders' construction. Equivalence with Python's regular-expression engine is argued in the comments of each finder, not proved against a formal regex semantics.
