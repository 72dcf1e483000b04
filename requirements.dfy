/** The requirement miner (`_extract_jd_requirements`): required skills,
    responsibilities and education terms, each taken from a labelled section
    of the lower-cased job description, and the minimum years of experience. */
module JobDescription {
  import opened Text

  datatype JobRequirements = JobRequirements(
    skills: seq<string>,
    responsibilities: seq<string>,
    experienceYears: nat,
    education: seq<string>)

  /** Header synonyms of each section, as alternatives tried in order; a
      header is a list of words separated by `\s+`. */
  const SkillHeaders: seq<seq<string>> :=
    [["required", "skills"], ["key", "skills"], ["skills"], ["technical", "qualifications"]]
  const ResponsibilityHeaders: seq<seq<string>> :=
    [["key", "responsibilities"], ["responsibilities"], ["duties"]]
  const EducationHeaders: seq<seq<string>> :=
    [["education"], ["qualifications"], ["academic", "background"]]

  /** Characters deleted from a captured section before it is split. */
  const Bullets: set<char> := {'*', '-', '\U{2022}'}

  /** The separator class `[,;\n]` the cleaned section is split on. */
  const ItemSeparators: set<char> := {',', ';', '\n'}

  // --------------------------------------------------------- section capture

  /** The words `ws` occur at `p`, separated by runs of whitespace; the result
      is where the last word ends. */
  function WordsEnd(t: string, p: nat, ws: seq<string>): (e: Option<nat>)
    ensures e.Some? ==> p <= e.value <= |t|
    decreases |ws|
  {
    if ws == [] then (if p <= |t| then Some(p) else None)
    else if !PrefixAt(t, p, ws[0]) then None
    else if |ws| == 1 then Some(p + |ws[0]|)
    else
      var q := p + |ws[0]|;
      var r := RunEnd(t, q, IsSpace);
      if r == q then None else WordsEnd(t, r, ws[1..])
  }

  /** The first alternative of `alts` that matches at `p`, and where it ends. */
  function HeaderAt(t: string, p: nat, alts: seq<seq<string>>): (e: Option<nat>)
    ensures e.Some? ==> p <= e.value <= |t|
  {
    if alts == [] then None
    else match WordsEnd(t, p, alts[0])
      case Some(e) => Some(e)
      case None => HeaderAt(t, p, alts[1..])
  }

  /** `\n[A-Z][a-zA-Z\s]+:` at `q` (the search is case-insensitive): a line
      that opens a new "Heading:". */
  predicate HeadingAt(t: string, q: nat) {
    q + 2 < |t| && t[q] == '\n' && IsLetter(t[q + 1]) &&
    var r := RunEnd(t, q + 2, IsLetterOrSpace);
    r > q + 2 && r < |t| && t[r] == ':'
  }

  /** Some header alternative occurs somewhere in `t`. */
  predicate HasHeader(t: string, alts: seq<seq<string>>) {
    exists p: nat | p <= |t| :: HeaderAt(t, p, alts).Some?
  }

  /** The lazy section body may stop at `q`: a blank line, a new heading, or
      the end of the text. */
  predicate SectionStopsAt(t: string, q: nat) {
    q == |t| || PrefixAt(t, q, "\n\n") || HeadingAt(t, q)
  }

  /** The first position at or after `s` where the section body stops. */
  function FirstStop(t: string, s: nat): (q: nat)
    requires s <= |t|
    ensures s <= q <= |t| && SectionStopsAt(t, q)
    ensures forall k :: s <= k < q ==> !SectionStopsAt(t, k)
    decreases |t| - s
  {
    if SectionStopsAt(t, s) then s else FirstStop(t, s + 1)
  }

  /** The optional `:` after a header ending at `e`: past it when present. */
  function ColonEnd(t: string, e: nat): (c: nat)
    requires e <= |t|
    ensures e <= c <= |t|
    ensures c == e + 1 <==> e < |t| && t[e] == ':'
    ensures c != e + 1 ==> c == e
  {
    if e < |t| && t[e] == ':' then e + 1 else e
  }

  /** Bounds of the group captured by a section pattern: the leftmost header,
      an optional colon and whitespace, then the body up to its first stop. */
  function SectionBounds(t: string, alts: seq<seq<string>>): (b: Option<(nat, nat)>)
    ensures b.Some? <==> HasHeader(t, alts)
    ensures b.Some? ==> b.value.0 <= b.value.1 <= |t| && SectionStopsAt(t, b.value.1)
    ensures b.Some? ==> forall q :: b.value.0 <= q < b.value.1 ==> !SectionStopsAt(t, q)
    ensures b.Some? ==>
              exists h: nat | h <= |t| ::
                HeaderAt(t, h, alts).Some? && (forall k :: 0 <= k < h ==> HeaderAt(t, k, alts).None?)
                && b.value.0 == RunEnd(t, ColonEnd(t, HeaderAt(t, h, alts).value), IsSpace)
  {
    var at := p => HeaderAt(t, p, alts);
    assert forall p :: at(p) == HeaderAt(t, p, alts);
    match FirstHit(at, 0, |t|)
    case None => None
    case Some(h) =>
      var e := HeaderAt(t, h, alts).value;
      var s := RunEnd(t, ColonEnd(t, e), IsSpace);
      assert HeaderAt(t, h, alts).Some?;
      Some((s, FirstStop(t, s)))
  }

  /** `match.group(1)` of a section pattern, or None when no header occurs. */
  function CaptureSection(t: string, alts: seq<seq<string>>): (r: Option<string>)
    ensures r.Some? <==> HasHeader(t, alts)
    ensures r.Some? ==> CharsWithin(r.value, t)
    ensures r.Some? ==> var b := SectionBounds(t, alts).value; r.value == t[b.0..b.1]
  {
    match SectionBounds(t, alts)
    case None => None
    case Some((s, q)) =>
      assert forall c :: c in t[s..q] ==> c in t;
      Some(t[s..q])
  }

  // ---------------------------------------------------- cleanup and split

  /** A mined fragment: non-empty, no surrounding whitespace, and free of
      bullet characters and item separators. */
  predicate IsCleanItem(f: string) {
    f != [] && !IsSpace(f[0]) && !IsSpace(f[|f| - 1]) && Avoids(f, Bullets) && Avoids(f, ItemSeparators)
  }

  /** The section with every `*`, `-` and `•` deleted, then stripped. */
  function CleanSection(x: string): (r: string)
    ensures CharsWithin(r, x) && Avoids(r, Bullets)
  {
    Strip(RemoveChar(RemoveChar(RemoveChar(x, '*'), '-'), '\U{2022}'))
  }

  /** The fragments of a captured section: cleaned, split on `[,;\n]`,
      trimmed, empty ones dropped. */
  function SectionItems(x: string): (r: seq<string>)
    ensures forall i :: 0 <= i < |r| ==> IsCleanItem(r[i]) && CharsWithin(r[i], x)
  {
    var cleaned := CleanSection(x);
    var pieces := SplitOn(cleaned, ItemSeparators);
    var r := StrippedNonEmpty(pieces);
    forall i | 0 <= i < |r| ensures IsCleanItem(r[i]) && CharsWithin(r[i], x) {
      var k :| 0 <= k < |pieces| && CharsWithin(r[i], pieces[k]);
      assert CharsWithin(pieces[k], cleaned) && Avoids(pieces[k], ItemSeparators);
    }
    r
  }

  /** Every piece of the cleaned section that is not blank becomes a
      fragment, in order: the fragments are those of the pieces before it,
      then the piece stripped, then those of the pieces after it. */
  lemma SectionItemsKeeps(x: string, k: nat)
    requires k < |SplitOn(CleanSection(x), ItemSeparators)|
    requires Strip(SplitOn(CleanSection(x), ItemSeparators)[k]) != []
    ensures var pieces := SplitOn(CleanSection(x), ItemSeparators);
            SectionItems(x) == StrippedNonEmpty(pieces[..k]) + [Strip(pieces[k])] + StrippedNonEmpty(pieces[k + 1..])
  {
    StrippedNonEmptyKeeps(SplitOn(CleanSection(x), ItemSeparators), k);
  }

  /** A section that is already one clean fragment yields exactly it. */
  lemma SectionItemsSingle(x: string)
    requires IsCleanItem(x)
    ensures SectionItems(x) == [x]
  {
    assert '*' !in x && '-' !in x && '\U{2022}' !in x;
    StripTrimmed(x);
    assert CleanSection(x) == x;
    SplitOnWhole(x, ItemSeparators);
    StrippedNonEmptyCons(x, []);
    assert [x] + [] == [x];
  }

  lemma PairIsClean(a: string, c: char, b: string)
    requires IsCleanItem(a) && IsCleanItem(b) && c in ItemSeparators
    ensures CleanSection(a + [c] + b) == a + [c] + b
  {
    var x := a + [c] + b;
    assert c !in Bullets;
    assert '*' !in x && '-' !in x && '\U{2022}' !in x by {
      assert forall d :: d in x ==> d in a || d == c || d in b;
    }
    assert x[0] == a[0] && x[|x| - 1] == b[|b| - 1];
    StripTrimmed(x);
  }

  lemma PairPieces(a: string, c: char, b: string)
    requires IsCleanItem(a) && IsCleanItem(b) && c in ItemSeparators
    ensures SplitOn(a + [c] + b, ItemSeparators) == [a, b]
  {
    SplitOnConcat(a, c, b, ItemSeparators);
    SplitOnWhole(a, ItemSeparators);
    SplitOnWhole(b, ItemSeparators);
    assert [a] + [b] == [a, b];
  }

  /** Two clean fragments joined by a separator yield both, in order,
      whatever the separator. */
  lemma SectionItemsPair(a: string, c: char, b: string)
    requires IsCleanItem(a) && IsCleanItem(b) && c in ItemSeparators
    ensures SectionItems(a + [c] + b) == [a, b]
  {
    PairIsClean(a, c, b);
    PairPieces(a, c, b);
    PairKept(a, b);
  }

  lemma PairKept(a: string, b: string)
    requires IsCleanItem(a) && IsCleanItem(b)
    ensures StrippedNonEmpty([a, b]) == [a, b]
  {
    StripTrimmed(a);
    StripTrimmed(b);
    StrippedNonEmptyTrimmed([a, b]);
  }

  /** The fragments of a section, or none when its header does not occur. */
  function ItemsOf(section: Option<string>): (r: seq<string>)
    ensures section.None? ==> r == []
    ensures section.Some? ==> r == SectionItems(section.value)
  {
    match section
    case None => []
    case Some(x) => SectionItems(x)
  }

  // ------------------------------------------------------ minimum experience

  /** `(\d+)\s*(?:\+|plus)?\s*(?:years|yrs?)\s+(?:of\s+)?(?:experience|exp)`
      matched at `p`; the result is the digits of the group. Every part is
      either a maximal run or a fixed word, so the first choice at each part
      is the one the backtracking matcher keeps. */
  function RequiredYearsAt(t: string, p: nat): (g: Option<string>)
    ensures g.Some? ==> g.value != [] && AllDigits(g.value) && PrefixAt(t, p, g.value)
  {
    if p >= |t| || !IsDigit(t[p]) then None
    else
      var d := RunEnd(t, p, IsDigit);
      var a := RunEnd(t, d, IsSpace);
      var b := if PrefixAt(t, a, "+") then a + 1 else if PrefixAt(t, a, "plus") then a + 4 else a;
      var c := RunEnd(t, b, IsSpace);
      match YearsWordEnd(t, c)
      case None => None
      case Some(u) =>
        var w := RunEnd(t, u, IsSpace);
        if w == u then None
        else
          var x := if PrefixAt(t, w, "of") && w + 2 < |t| && IsSpace(t[w + 2])
                   then RunEnd(t, w + 2, IsSpace) else w;
          if PrefixAt(t, x, "exp") then Some(t[p..d]) else None
  }

  /** Group 1 of the leftmost match of the minimum-experience pattern. */
  function RequiredYears(t: string): (g: Option<string>)
    ensures g.None? <==> forall p :: 0 <= p <= |t| ==> RequiredYearsAt(t, p).None?
    ensures g.Some? ==> exists q :: 0 <= q <= |t| && RequiredYearsAt(t, q) == g &&
                          forall k :: 0 <= k < q ==> RequiredYearsAt(t, k).None?
  {
    var at := p => RequiredYearsAt(t, p);
    assert forall p :: at(p) == RequiredYearsAt(t, p);
    match FirstHit(at, 0, |t|)
    case None => None
    case Some(q) => RequiredYearsAt(t, q)
  }

  /** `int(exp_match.group(1))`, 0 when the pattern does not occur. */
  function MinExperienceYears(t: string): (n: nat)
    ensures RequiredYears(t).None? ==> n == 0
    ensures RequiredYears(t).Some? ==> n == ParseNat(RequiredYears(t).value)
  {
    match RequiredYears(t)
    case None => 0
    case Some(g) => ParseNat(g)
  }

  // ------------------------------------------------------------------ miner

  /** `_extract_jd_requirements(jd_text)` */
  function ExtractJdRequirements(jd: string): (r: JobRequirements)
    ensures forall i :: 0 <= i < |r.skills| ==> IsCleanItem(r.skills[i]) && NoUpper(r.skills[i])
    ensures forall i :: 0 <= i < |r.responsibilities| ==>
              IsCleanItem(r.responsibilities[i]) && NoUpper(r.responsibilities[i])
    ensures forall i :: 0 <= i < |r.education| ==> IsCleanItem(r.education[i]) && NoUpper(r.education[i])
    ensures !HasHeader(Lower(jd), SkillHeaders) ==> r.skills == []
    ensures !HasHeader(Lower(jd), ResponsibilityHeaders) ==> r.responsibilities == []
    ensures !HasHeader(Lower(jd), EducationHeaders) ==> r.education == []
    ensures r.experienceYears == MinExperienceYears(Lower(jd))
  {
    var low := Lower(jd);
    var r := JobRequirements(
      ItemsOf(CaptureSection(low, SkillHeaders)),
      ItemsOf(CaptureSection(low, ResponsibilityHeaders)),
      MinExperienceYears(low),
      ItemsOf(CaptureSection(low, EducationHeaders)));
    LowerItems(low, CaptureSection(low, SkillHeaders));
    LowerItems(low, CaptureSection(low, ResponsibilityHeaders));
    LowerItems(low, CaptureSection(low, EducationHeaders));
    r
  }

  /** Fragments mined from lower-cased text are lower-case. */
  lemma LowerItems(low: string, section: Option<string>)
    requires NoUpper(low)
    requires section.Some? ==> CharsWithin(section.value, low)
    ensures forall i :: 0 <= i < |ItemsOf(section)| ==> NoUpper(ItemsOf(section)[i])
  {
    var items := ItemsOf(section);
    forall i, j | 0 <= i < |items| && 0 <= j < |items[i]| ensures !IsUpper(items[i][j]) {
      assert items[i][j] in items[i];
    }
  }
}
