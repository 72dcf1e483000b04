/** The structured record the extractor builds from one resume and the scorer
    reads (`extracted_data` in resume_parser.py). */
module Candidate {
  import opened Text

  /** One named entity reported by the entity recogniser: its label
      (`ent.label_`) and its text (`ent.text`). */
  datatype Entity = Entity(kind: string, text: string)

  datatype CandidateRecord = CandidateRecord(
    name: Option<string>,
    email: Option<string>,
    phone: Option<string>,
    skills: seq<string>,
    experience: seq<string>,
    education: seq<string>,
    rawText: string)

  /** The record before any field is found: every field at its default and
      the text kept as it was given. */
  function EmptyRecord(text: string): CandidateRecord {
    CandidateRecord(None, None, None, [], [], [], text)
  }
}
