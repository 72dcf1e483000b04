/** The regular expressions of resume_parser.py as deterministic finders.

    Each `...At(t, p)` function states what the pattern matches when the
    search tries position `p`, following the backtracking order of Python's
    `re` module (greedy quantifiers longest first, lazy ones shortest first,
    alternatives left to right); `re.search` and the first element of
    `re.findall` are then the leftmost success, `FirstMatch`. */
module ResumePatterns {
  import opened Text

  // ------------------------------------------------------------------ email

  /** `[a-zA-Z0-9._%+-]` */
  predicate IsLocalChar(c: char) {
    IsLetter(c) || IsDigit(c) || c == '.' || c == '_' || c == '%' || c == '+' || c == '-'
  }

  /** `[a-zA-Z0-9.-]` */
  predicate IsDomainChar(c: char) {
    IsLetter(c) || IsDigit(c) || c == '.' || c == '-'
  }

  /** `s` splits as local part `s[..k]`, `@`, domain `s[k+1..x]`, `.` and a
      top-level domain `s[x+1..]` of two or more letters. */
  predicate EmailShape(s: string, k: nat, x: nat) {
    0 < k && k + 1 < x && x + 2 < |s|
    && (forall i :: 0 <= i < k ==> IsLocalChar(s[i]))
    && s[k] == '@'
    && (forall i :: k < i < x ==> IsDomainChar(s[i]))
    && s[x] == '.'
    && (forall i :: x < i < |s| ==> IsLetter(s[i]))
  }

  /** `s` is in the language of `[a-zA-Z0-9._%+-]+@[a-zA-Z0-9.-]+\.[a-zA-Z]{2,}`. */
  predicate IsEmailAddress(s: string) {
    exists k: nat, x: nat | k < x < |s| :: EmailShape(s, k, x)
  }

  /** A `.` at `x` followed by two letters. */
  predicate TldDotAt(t: string, x: nat) {
    x + 2 < |t| && t[x] == '.' && IsLetter(t[x + 1]) && IsLetter(t[x + 2])
  }

  /** The largest `x` in `[lo, hi)` with `TldDotAt(t, x)`: where the greedy
      domain part `[a-zA-Z0-9.-]+` gives back just enough for `\.[a-zA-Z]{2,}`. */
  function LastTldDot(t: string, lo: nat, hi: nat): (x: Option<nat>)
    ensures x.Some? ==> lo <= x.value < hi && TldDotAt(t, x.value)
    ensures x.Some? ==> forall y :: x.value < y < hi ==> !TldDotAt(t, y)
    ensures x.None? ==> forall y :: lo <= y < hi ==> !TldDotAt(t, y)
    decreases hi
  {
    if hi <= lo then None
    else if TldDotAt(t, hi - 1) then Some(hi - 1)
    else LastTldDot(t, lo, hi - 1)
  }

  /** The email pattern tried at `p`, as positions: the `@` at `e`, the
      dot before the top-level domain at `x`, and the end of the match. */
  function EmailParts(t: string, p: nat): (m: Option<(nat, nat, nat)>)
    ensures m.Some? ==>
              var (e, x, end) := m.value;
              p < e && e + 1 < x && x + 2 < end <= |t|
              && (forall i :: p <= i < e ==> IsLocalChar(t[i])) && t[e] == '@'
              && (forall i :: e < i < x ==> IsDomainChar(t[i])) && t[x] == '.'
              && (forall i :: x < i < end ==> IsLetter(t[i]))
  {
    if p >= |t| || !IsLocalChar(t[p]) then None
    else
      var e := RunEnd(t, p, IsLocalChar);
      if e < |t| && t[e] == '@' then
        var de := RunEnd(t, e + 1, IsDomainChar);
        match LastTldDot(t, e + 2, de)
        case None => None
        case Some(x) => Some((e, x, RunEnd(t, x + 1, IsLetter)))
      else None
  }

  /** The email pattern tried at `p`. */
  function EmailAt(t: string, p: nat): (r: Option<string>)
    ensures r.Some? ==> IsEmailAddress(r.value) && PrefixAt(t, p, r.value)
  {
    match EmailParts(t, p)
    case None => None
    case Some((e, x, end)) =>
      var s := t[p..end];
      assert forall i :: 0 <= i < |s| ==> s[i] == t[p + i];
      assert EmailShape(s, e - p, x - p);
      Some(s)
  }

  /** The match at `p` is the longest address starting there, and there is
      none when the pattern fails at `p`: every greedy part keeps its whole
      run except the domain, which gives back only what the top-level
      domain needs. */
  lemma EmailAtLongest(t: string, p: nat)
    ensures EmailAt(t, p).Some? ==> forall l :: p + |EmailAt(t, p).value| < l <= |t| ==> !IsEmailAddress(t[p..l])
    ensures EmailAt(t, p).None? ==> forall l :: p <= l <= |t| ==> !IsEmailAddress(t[p..l])
  {
    forall l | p <= l <= |t| && IsEmailAddress(t[p..l])
      ensures EmailAt(t, p).Some? && l <= p + |EmailAt(t, p).value|
    {
      var k: nat, x: nat :| k < x < l - p && EmailShape(t[p..l], k, x);
      EmailBound(t, p, l, k, x);
    }
  }

  /** An address `t[p..l]` split at `k` and `x` is covered by the match at `p`. */
  lemma EmailBound(t: string, p: nat, l: nat, k: nat, x: nat)
    requires p <= l <= |t| && EmailShape(t[p..l], k, x)
    ensures EmailAt(t, p).Some? && l <= p + |EmailAt(t, p).value|
  {
    EmailShapeWithin(t, p, l, k, x);
    var e := RunEnd(t, p, IsLocalChar);
    assert e == p + k;
    var de := RunEnd(t, e + 1, IsDomainChar);
    assert l <= de;
    assert TldDotAt(t, p + x);
    var y := LastTldDot(t, e + 2, de).value;
    assert y == p + x || l <= y;
    EmailAtWhen(t, p, y);
  }

  /** The parts of an address `t[p..l]`, read in `t`. */
  lemma EmailShapeWithin(t: string, p: nat, l: nat, k: nat, x: nat)
    requires p <= l <= |t| && EmailShape(t[p..l], k, x)
    ensures 0 < k && k + 1 < x && p + x + 2 < l
    ensures forall i :: p <= i < p + k ==> IsLocalChar(t[i])
    ensures t[p + k] == '@'
    ensures forall i :: p + k < i < l ==> IsDomainChar(t[i])
    ensures t[p + x] == '.'
    ensures forall i :: p + x < i < l ==> IsLetter(t[i])
  {
    var s := t[p..l];
    assert forall i :: p <= i < l ==> t[i] == s[i - p];
    forall i | p + k < i < l ensures IsDomainChar(t[i]) {
      var j := i - p;
      assert t[i] == s[j];
      assert IsDomainChar(s[j]) by {
        if j < x { } else if j == x { } else { assert IsLetter(s[j]); }
      }
    }
  }

  /** The match at `p` once its top-level-domain dot `y` is known. */
  lemma EmailAtWhen(t: string, p: nat, y: nat)
    requires p < |t| && IsLocalChar(t[p])
    requires RunEnd(t, p, IsLocalChar) < |t| && t[RunEnd(t, p, IsLocalChar)] == '@'
    requires LastTldDot(t, RunEnd(t, p, IsLocalChar) + 2, RunEnd(t, RunEnd(t, p, IsLocalChar) + 1, IsDomainChar)) == Some(y)
    ensures y + 1 <= |t| && EmailAt(t, p) == Some(t[p..RunEnd(t, y + 1, IsLetter)])
  {
    assert EmailParts(t, p) == Some((RunEnd(t, p, IsLocalChar), y, RunEnd(t, y + 1, IsLetter)));
  }

  /** `re.findall(email_pattern, text)[0]`, if any. */
  function FindEmail(t: string): (r: Option<string>)
    ensures r.Some? ==> IsEmailAddress(r.value) && Contains(t, r.value)
    ensures r.None? <==> forall p :: 0 <= p <= |t| ==> EmailAt(t, p).None?
    ensures r.Some? ==> exists q :: 0 <= q <= |t| && EmailAt(t, q) == r && forall k :: 0 <= k < q ==> EmailAt(t, k).None?
  {
    var at := p => EmailAt(t, p);
    assert forall p :: at(p) == EmailAt(t, p);
    FirstMatch(at, |t|)
  }

  // ------------------------------------------------------------------ phone

  /** `[-. (]` */
  predicate IsOpenSep(c: char) { c == '-' || c == '.' || c == ' ' || c == '(' }

  /** `[-. )]` */
  predicate IsCloseSep(c: char) { c == '-' || c == '.' || c == ' ' || c == ')' }

  /** `[-. ]` */
  predicate IsLineSep(c: char) { c == '-' || c == '.' || c == ' ' }

  predicate IsBlank(c: char) { c == ' ' }

  /** The optional extension ` *x(\d+)` at `i`: its digits, or nothing. */
  function ExtensionAt(t: string, i: nat): (x: string)
    requires i <= |t|
    ensures AllDigits(x)
  {
    var s := RunEnd(t, i, IsBlank);
    if s + 1 < |t| && t[s] == 'x' && IsDigit(t[s + 1]) then t[s + 1..RunEnd(t, s + 1, IsDigit)] else []
  }

  /** The digit group `g` at `i`, of exactly `n` digits, after a greedy run
      of separators `sep`. */
  function DigitGroupAfter(t: string, i: nat, sep: char -> bool, n: nat): (r: Option<(string, nat)>)
    requires i <= |t|
    ensures r.Some? ==> |r.value.0| == n && AllDigits(r.value.0) && r.value.1 <= |t|
  {
    var a := RunEnd(t, i, sep);
    if DigitRunAt(t, a, n) then Some((t[a..a + n], a + n)) else None
  }

  /** `[-. ]*(\d{4})(?: *x(\d+))?` at `i`. */
  function LineNumberAt(t: string, i: nat): (r: Option<string>)
    requires i <= |t|
    ensures r.Some? ==> |r.value| >= 4 && AllDigits(r.value)
  {
    match DigitGroupAfter(t, i, IsLineSep, 4)
    case None => None
    case Some((g, j)) =>
      var x := ExtensionAt(t, j);
      AllDigitsConcat(g, x);
      Some(g + x)
  }

  /** `[-. )]*(\d{3})` followed by the line number, at `i`. */
  function ExchangeAt(t: string, i: nat): (r: Option<string>)
    requires i <= |t|
    ensures r.Some? ==> |r.value| >= 7 && AllDigits(r.value)
  {
    match DigitGroupAfter(t, i, IsCloseSep, 3)
    case None => None
    case Some((g, j)) =>
      match LineNumberAt(t, j)
      case None => None
      case Some(rest) =>
        AllDigitsConcat(g, rest);
        Some(g + rest)
  }

  /** `[-. (]*(\d{3})[-. )]*(\d{3})[-. ]*(\d{4})(?: *x(\d+))?` from `q`:
      the groups concatenated, a missing extension contributing nothing. */
  function PhoneBodyAt(t: string, q: nat): (r: Option<string>)
    requires q <= |t|
    ensures r.Some? ==> |r.value| >= 10 && AllDigits(r.value)
  {
    match DigitGroupAfter(t, q, IsOpenSep, 3)
    case None => None
    case Some((g, j)) =>
      match ExchangeAt(t, j)
      case None => None
      case Some(rest) =>
        AllDigitsConcat(g, rest);
        Some(g + rest)
  }

  /** The phone pattern with a country code of exactly `k` digits at `d`. */
  function WithCountryCode(t: string, d: nat, k: nat): (r: Option<string>)
    ensures r.Some? ==> |r.value| >= 10 + k && AllDigits(r.value)
  {
    if !DigitRunAt(t, d, k) then None
    else
      match PhoneBodyAt(t, d + k)
      case None => None
      case Some(body) =>
        AllDigitsConcat(t[d..d + k], body);
        Some(t[d..d + k] + body)
  }

  /** The phone pattern tried at `p`: the optional `\+?(\d{1,3})` is tried
      first with three, two and one digits, then left out. */
  function PhoneAt(t: string, p: nat): (r: Option<string>)
    ensures r.Some? ==> 10 <= |r.value| && AllDigits(r.value)
  {
    if p > |t| then None
    else
      var d := if p < |t| && t[p] == '+' then p + 1 else p;
      var r3 := WithCountryCode(t, d, 3);
      if r3.Some? then r3
      else
        var r2 := WithCountryCode(t, d, 2);
        if r2.Some? then r2
        else
          var r1 := WithCountryCode(t, d, 1);
          if r1.Some? then r1
          else PhoneBodyAt(t, p)
  }

  /** `''.join(re.findall(phone_pattern, text)[0])`, if any. */
  function FindPhone(t: string): (r: Option<string>)
    ensures r.Some? ==> 10 <= |r.value| && AllDigits(r.value)
    ensures r.None? <==> forall p :: 0 <= p <= |t| ==> PhoneAt(t, p).None?
    ensures r.Some? ==> exists q :: 0 <= q <= |t| && PhoneAt(t, q) == r && forall k :: 0 <= k < q ==> PhoneAt(t, k).None?
  {
    var at := p => PhoneAt(t, p);
    assert forall p :: at(p) == PhoneAt(t, p);
    FirstMatch(at, |t|)
  }

  /** The phone line `+919876543210` of the sample resume in the demonstration
      blocks of resume_parser.py and scoring_logic.py: a three-digit country
      code leaves too few digits, so the code is `91` and the phone is every
      digit. */
  lemma PhoneCountryCodeBacktracks()
    ensures FindPhone("+919876543210") == Some("919876543210")
  {
    var t := "+919876543210";
    SampleThreeDigitCodeFails();
    SampleTwoDigitCode();
    assert PhoneAt(t, 0) == Some("919876543210");
  }

  lemma SampleTwoDigitCode()
    ensures WithCountryCode("+919876543210", 1, 2) == Some("919876543210")
  {
    var t := "+919876543210";
    SampleBody();
    assert t[1..3] == "91";
    assert DigitRunAt(t, 1, 2);
    assert "91" + "9876543210" == "919876543210";
  }

  lemma SampleThreeDigitCodeFails()
    ensures WithCountryCode("+919876543210", 1, 3).None?
  {
    var t := "+919876543210";
    assert RunEnd(t, 4, IsOpenSep) == 4 && t[4..7] == "876";
    assert RunEnd(t, 7, IsCloseSep) == 7 && t[7..10] == "543";
    assert RunEnd(t, 10, IsLineSep) == 10;
    assert DigitGroupAfter(t, 10, IsLineSep, 4).None?;
  }

  lemma SampleLineNumber()
    ensures LineNumberAt("+919876543210", 9) == Some("3210")
  {
    var t := "+919876543210";
    assert RunEnd(t, 9, IsLineSep) == 9 && t[9..13] == "3210";
    assert RunEnd(t, 13, IsBlank) == 13;
    assert ExtensionAt(t, 13) == [];
    assert "3210" + ExtensionAt(t, 13) == "3210";
  }

  lemma SampleBody()
    ensures PhoneBodyAt("+919876543210", 3) == Some("9876543210")
  {
    var t := "+919876543210";
    SampleLineNumber();
    assert RunEnd(t, 3, IsOpenSep) == 3 && t[3..6] == "987";
    assert RunEnd(t, 6, IsCloseSep) == 6 && t[6..9] == "654";
    assert "654" + "3210" == "6543210";
    assert ExchangeAt(t, 6) == Some("6543210");
    assert "987" + "6543210" == "9876543210";
  }

  // ------------------------------------------------------------- experience

  /** `(\d+)\s*(?:years|yrs?)\s+(?:of)?\s*(?:experience|exp|background)`
      tried at `p` of lower-cased text; the result is group 1. */
  function ExperienceMentionAt(t: string, p: nat): (g: Option<string>)
    ensures g.Some? ==> g.value != [] && AllDigits(g.value) && PrefixAt(t, p, g.value)
    ensures g.Some? ==> p + |g.value| == |t| || !IsDigit(t[p + |g.value|])
  {
    if p >= |t| || !IsDigit(t[p]) then None
    else
      var d := RunEnd(t, p, IsDigit);
      match YearsWordEnd(t, RunEnd(t, d, IsSpace))
      case None => None
      case Some(u) =>
        var s := RunEnd(t, u, IsSpace);
        if s == u then None
        else
          var k := if PrefixAt(t, s, "of") then RunEnd(t, s + 2, IsSpace) else s;
          if PrefixAt(t, k, "exp") || PrefixAt(t, k, "background") then Some(t[p..d]) else None
  }

  /** The group of the first experience mention, if any. */
  function FindExperienceMention(t: string): (g: Option<string>)
    ensures g.Some? ==> g.value != [] && AllDigits(g.value) && Contains(t, g.value)
    ensures g.None? <==> forall p :: 0 <= p <= |t| ==> ExperienceMentionAt(t, p).None?
    ensures g.Some? ==> exists q :: 0 <= q <= |t| && ExperienceMentionAt(t, q) == g && forall k :: 0 <= k < q ==> ExperienceMentionAt(t, k).None?
  {
    var at := p => ExperienceMentionAt(t, p);
    assert forall p :: at(p) == ExperienceMentionAt(t, p);
    FirstMatch(at, |t|)
  }

  /** A mention at the start of the text is the one found. */
  lemma FindExperienceMentionAtStart(t: string)
    requires ExperienceMentionAt(t, 0).Some?
    ensures FindExperienceMention(t) == ExperienceMentionAt(t, 0)
  {
    var q :| 0 <= q <= |t| && ExperienceMentionAt(t, q) == FindExperienceMention(t)
             && forall k :: 0 <= k < q ==> ExperienceMentionAt(t, k).None?;
    assert q == 0;
  }

  // ------------------------------------------------------ education section

  /** Where `(\n\n|$)` matches, `$` being the end of the text or just before
      a newline that ends it. */
  predicate SectionEndsAt(t: string, j: nat) {
    BlankLineAt(t, j) || j == |t| || (j + 1 == |t| && t[j] == '\n')
  }

  /** `\n\n` at `j`. */
  predicate BlankLineAt(t: string, j: nat) {
    j + 1 < |t| && t[j] == '\n' && t[j + 1] == '\n'
  }

  /** The lazy `(.*?)` stops at the first position where the end matches. */
  function SectionEnd(t: string, j: nat): (e: nat)
    requires j <= |t|
    ensures j <= e <= |t| && SectionEndsAt(t, e)
    ensures forall k :: j <= k < e ==> !SectionEndsAt(t, k)
    decreases |t| - j
  {
    if SectionEndsAt(t, j) then j else SectionEnd(t, j + 1)
  }

  /** `re.search(kw + r'\s*(.*?)(\n\n|$)', t, re.DOTALL).group(0)`: from the
      first occurrence of `kw`, past the whitespace after it, up to and
      including the first blank line, or to the end. */
  function KeywordSection(t: string, kw: string): (r: Option<string>)
    ensures r.Some? <==> Contains(t, kw)
    ensures r.Some? ==> exists k :: 0 <= k <= |t| && PrefixAt(t, k, r.value) && PrefixAt(t, k, kw)
  {
    match FindFrom(t, kw, 0)
    case None => None
    case Some(k) => Some(SectionFrom(t, k, |kw|))
  }

  /** The section whose `n`-character keyword starts at `k`. */
  function SectionFrom(t: string, k: nat, n: nat): (r: string)
    requires k + n <= |t|
    ensures PrefixAt(t, k, r)
  {
    var j := SectionEnd(t, RunEnd(t, k + n, IsSpace));
    t[k..if BlankLineAt(t, j) then j + 2 else j]
  }

  /** The section starts at the first occurrence of `kw` and runs to the
      first place after the whitespace that follows it where `(\n\n|$)`
      matches, a blank line being kept. */
  lemma KeywordSectionExtent(t: string, kw: string, k: nat, j: nat)
    requires FindFrom(t, kw, 0) == Some(k)
    requires RunEnd(t, k + |kw|, IsSpace) <= j <= |t| && SectionEndsAt(t, j)
    requires forall i :: RunEnd(t, k + |kw|, IsSpace) <= i < j ==> !SectionEndsAt(t, i)
    ensures KeywordSection(t, kw) == Some(t[k..if BlankLineAt(t, j) then j + 2 else j])
  {
    SectionEndUnique(t, RunEnd(t, k + |kw|, IsSpace), j);
    SectionFromEnd(t, k, |kw|, j);
    assert KeywordSection(t, kw) == Some(SectionFrom(t, k, |kw|));
  }

  lemma SectionFromEnd(t: string, k: nat, n: nat, j: nat)
    requires k + n <= |t| && SectionEnd(t, RunEnd(t, k + n, IsSpace)) == j
    ensures SectionFrom(t, k, n) == t[k..if BlankLineAt(t, j) then j + 2 else j]
  {
  }

  /** `SectionEnd` is the only first end from `w`. */
  lemma SectionEndUnique(t: string, w: nat, j: nat)
    requires w <= j <= |t| && SectionEndsAt(t, j)
    requires forall i :: w <= i < j ==> !SectionEndsAt(t, i)
    ensures SectionEnd(t, w) == j
  {
    var ends := (i: nat) => SectionEndsAt(t, i);
    LeastUnique(ends, w, SectionEnd(t, w), j);
  }

  // ----------------------------------------------------------------- degree

  /** One alternative of the degree pattern's leading group:
      `x\.?\s?y` for an abbreviation, or a literal word. */
  datatype Lead = Abbrev(head: string, last: char) | Word(w: string)

  /** `b\.?\s?s|m\.?\s?s|b\.?\s?a|ph\.?\s?d|bachelor|master|doctor|eng\.`, in order. */
  const DegreeLeads: seq<Lead> :=
    [Abbrev("b", 's'), Abbrev("m", 's'), Abbrev("b", 'a'), Abbrev("ph", 'd'),
     Word("bachelor"), Word("master"), Word("doctor"), Word("eng.")]

  /** Where the alternative `l` ends when it matches at `p`. */
  function LeadEnd(t: string, p: nat, l: Lead): (e: Option<nat>)
    ensures e.Some? ==> p < e.value <= |t|
  {
    match l
    case Word(w) => if w != [] && PrefixAt(t, p, w) then Some(p + |w|) else None
    case Abbrev(head, last) =>
      if !PrefixAt(t, p, head) then None
      else
        var q := p + |head|;
        var q1 := if q < |t| && t[q] == '.' then q + 1 else q;
        var q2 := if q1 < |t| && IsSpace(t[q1]) then q1 + 1 else q1;
        if q2 < |t| && t[q2] == last then Some(q2 + 1) else None
  }

  /** `\s+([a-zA-Z\s]+)` from `b`: the greedy `\s+` gives back its last
      whitespace character to the group when no letter follows it. */
  function SpacedGroupAt(t: string, b: nat): (g: Option<string>)
    requires b <= |t|
    ensures g.Some? ==> g.value != [] && forall i :: 0 <= i < |g.value| ==> IsLetterOrSpace(g.value[i])
    ensures g.Some? ==> Contains(t, g.value)
  {
    var w := RunEnd(t, b, IsSpace);
    if w == b then None
    else if w < |t| && IsLetter(t[w]) then
      var x := RunEnd(t, w, IsLetterOrSpace);
      assert PrefixAt(t, w, t[w..x]);
      Some(t[w..x])
    else if w >= b + 2 then
      assert PrefixAt(t, w - 1, t[w - 1..w]);
      Some(t[w - 1..w])
    else None
  }

  /** `(?:in|of)\s+([a-zA-Z\s]+)` at `j`. */
  function SubjectAt(t: string, j: nat): (g: Option<string>)
    ensures g.Some? ==> g.value != [] && forall i :: 0 <= i < |g.value| ==> IsLetterOrSpace(g.value[i])
    ensures g.Some? ==> Contains(t, g.value)
  {
    if PrefixAt(t, j, "in") || PrefixAt(t, j, "of") then SpacedGroupAt(t, j + 2) else None
  }

  /** `[^.\n]*?(?:in|of)\s+([a-zA-Z\s]+)` from `j`: the lazy gap grows one
      character at a time and may not cross a `.` or a newline. */
  function DegreeTail(t: string, j: nat): (g: Option<string>)
    requires j <= |t|
    ensures g.Some? ==> g.value != [] && forall i :: 0 <= i < |g.value| ==> IsLetterOrSpace(g.value[i])
    ensures g.Some? ==> Contains(t, g.value)
    decreases |t| - j
  {
    match SubjectAt(t, j)
    case Some(g) => Some(g)
    case None =>
      if j < |t| && t[j] != '.' && t[j] != '\n' then DegreeTail(t, j + 1) else None
  }

  /** The first alternative among `leads` whose continuation matches. */
  function DegreeFrom(t: string, p: nat, leads: seq<Lead>): (g: Option<string>)
    ensures g.Some? ==> g.value != [] && forall i :: 0 <= i < |g.value| ==> IsLetterOrSpace(g.value[i])
    ensures g.Some? ==> Contains(t, g.value)
  {
    if leads == [] then None
    else
      var e := LeadEnd(t, p, leads[0]);
      var g := if e.Some? then DegreeTail(t, e.value) else None;
      if g.Some? then g else DegreeFrom(t, p, leads[1..])
  }

  /** The degree pattern tried at `p`; the result is its group. */
  function DegreeAt(t: string, p: nat): (g: Option<string>)
    ensures g.Some? ==> g.value != [] && forall i :: 0 <= i < |g.value| ==> IsLetterOrSpace(g.value[i])
    ensures g.Some? ==> Contains(t, g.value)
  {
    DegreeFrom(t, p, DegreeLeads)
  }

  /** `re.findall(degree_pattern, section)[0]`, if any. */
  function FindDegree(t: string): (g: Option<string>)
    ensures g.Some? ==> g.value != [] && forall i :: 0 <= i < |g.value| ==> IsLetterOrSpace(g.value[i])
    ensures g.Some? ==> Contains(t, g.value)
    ensures g.None? <==> forall p :: 0 <= p <= |t| ==> DegreeAt(t, p).None?
    ensures g.Some? ==> exists q :: 0 <= q <= |t| && DegreeAt(t, q) == g && forall k :: 0 <= k < q ==> DegreeAt(t, k).None?
  {
    var at := p => DegreeAt(t, p);
    assert forall p :: at(p) == DegreeAt(t, p);
    FirstMatch(at, |t|)
  }

  // ------------------------------------------------------------- university

  const InstitutionWords: seq<string> := ["university", "institute", "college", "school"]
  const InstitutionSuffixes: seq<string> := ["university", "institute", "college"]

  /** Where the first of `words` that occurs at `p` ends. */
  function WordAmongEnd(t: string, p: nat, words: seq<string>): (e: Option<nat>)
    ensures e.Some? ==> p <= e.value <= |t|
    ensures e.Some? ==> exists k :: 0 <= k < |words| && PrefixAt(t, p, words[k]) && e.value == p + |words[k]|
  {
    if words == [] then None
    else if PrefixAt(t, p, words[0]) then Some(p + |words[0]|)
    else WordAmongEnd(t, p, words[1..])
  }

  /** First alternative: `(?:university|institute|college|school)\s+of\s+([a-zA-Z\s]+)`. */
  function InstitutionOfAt(t: string, p: nat): (g: Option<string>)
    ensures g.Some? ==> g.value != [] && forall i :: 0 <= i < |g.value| ==> IsLetterOrSpace(g.value[i])
    ensures g.Some? ==> Contains(t, g.value)
  {
    match WordAmongEnd(t, p, InstitutionWords)
    case None => None
    case Some(e) =>
      var s := RunEnd(t, e, IsSpace);
      if s > e && PrefixAt(t, s, "of") then SpacedGroupAt(t, s + 2) else None
  }

  predicate AllLetters(w: string) { forall i :: 0 <= i < |w| ==> IsLetter(w[i]) }

  /** A word of letters occurring at `m` puts letters at its positions. */
  lemma LettersAt(t: string, m: nat, w: string)
    requires PrefixAt(t, m, w) && AllLetters(w)
    ensures forall i :: m <= i < m + |w| ==> IsLetter(t[i])
  {
    forall i | m <= i < m + |w| ensures IsLetter(t[i]) {
      assert t[i] == t[m..m + |w|][i - m] == w[i - m];
    }
  }

  /** `(?:university|institute|college)` at `m`: where it ends. */
  function SuffixEnd(t: string, m: nat): (e: Option<nat>)
    ensures e.Some? ==> m < e.value <= |t| && forall i :: m <= i < e.value ==> IsLetter(t[i])
  {
    match WordAmongEnd(t, m, InstitutionSuffixes)
    case None => None
    case Some(e) =>
      assert forall k :: 0 <= k < |InstitutionSuffixes| ==> AllLetters(InstitutionSuffixes[k]);
      var k :| 0 <= k < |InstitutionSuffixes| && PrefixAt(t, m, InstitutionSuffixes[k]) && e == m + |InstitutionSuffixes[k]|;
      LettersAt(t, m, InstitutionSuffixes[k]);
      Some(e)
  }

  /** The largest `m` in `[lo, hi)` at which a suffix word occurs. */
  function LastSuffix(t: string, lo: nat, hi: nat): (m: Option<nat>)
    ensures m.Some? ==> lo <= m.value < hi && SuffixEnd(t, m.value).Some?
    ensures m.Some? ==> forall y :: m.value < y < hi ==> SuffixEnd(t, y).None?
    decreases hi
  {
    if hi <= lo then None
    else if SuffixEnd(t, hi - 1).Some? then Some(hi - 1)
    else LastSuffix(t, lo, hi - 1)
  }

  /** Second alternative: `([a-zA-Z\s]+(?:university|institute|college))`,
      the greedy run giving back characters until a suffix word fits. */
  function NamedInstitutionAt(t: string, p: nat): (g: Option<string>)
    ensures g.Some? ==> g.value != [] && forall i :: 0 <= i < |g.value| ==> IsLetterOrSpace(g.value[i])
    ensures g.Some? ==> Contains(t, g.value)
  {
    if p >= |t| || !IsLetterOrSpace(t[p]) then None
    else
      var run := RunEnd(t, p, IsLetterOrSpace);
      match LastSuffix(t, p + 1, run)
      case None => None
      case Some(m) =>
        var e := SuffixEnd(t, m).value;
        assert forall i :: p <= i < e ==> IsLetterOrSpace(t[i]);
        assert PrefixAt(t, p, t[p..e]);
        Some(t[p..e])
  }

  /** The university pattern tried at `p`, as `uni = groups[0] or groups[1]`:
      the first alternative's group when it matches, else the second's. */
  function UniversityAt(t: string, p: nat): (g: Option<string>)
    ensures g.Some? ==> g.value != [] && forall i :: 0 <= i < |g.value| ==> IsLetterOrSpace(g.value[i])
    ensures g.Some? ==> Contains(t, g.value)
  {
    var g1 := InstitutionOfAt(t, p);
    if g1.Some? then g1 else NamedInstitutionAt(t, p)
  }

  /** `re.findall(university_pattern, section)[0]`, reduced to its
      non-empty group, if any. */
  function FindUniversity(t: string): (g: Option<string>)
    ensures g.Some? ==> g.value != [] && forall i :: 0 <= i < |g.value| ==> IsLetterOrSpace(g.value[i])
    ensures g.Some? ==> Contains(t, g.value)
    ensures g.None? <==> forall p :: 0 <= p <= |t| ==> UniversityAt(t, p).None?
    ensures g.Some? ==> exists q :: 0 <= q <= |t| && UniversityAt(t, q) == g && forall k :: 0 <= k < q ==> UniversityAt(t, k).None?
  {
    var at := p => UniversityAt(t, p);
    assert forall p :: at(p) == UniversityAt(t, p);
    FirstMatch(at, |t|)
  }

  // ------------------------------------------------------------------- year

  /** `\b` before position `p`, which holds a word character. */
  predicate BoundaryBefore(t: string, p: nat)
    requires p <= |t|
  {
    p == 0 || !IsWordChar(t[p - 1])
  }

  /** `\b` after position `q`, preceded by a word character. */
  predicate BoundaryAt(t: string, q: nat)
    requires q <= |t|
  {
    q == |t| || !IsWordChar(t[q])
  }

  /** `\b(?:19|20)\d{2}\b` at `p`. */
  function YearAt(t: string, p: nat): (y: Option<string>)
    ensures y.Some? ==> |y.value| == 4 && AllDigits(y.value) && (y.value[..2] == "19" || y.value[..2] == "20")
    ensures y.Some? ==> PrefixAt(t, p, y.value)
  {
    if p + 4 <= |t| && BoundaryBefore(t, p) && (PrefixAt(t, p, "19") || PrefixAt(t, p, "20"))
       && IsDigit(t[p + 2]) && IsDigit(t[p + 3]) && BoundaryAt(t, p + 4)
    then
      assert t[p..p + 4][..2] == t[p..p + 2];
      Some(t[p..p + 4])
    else None
  }

  /** `re.findall(year_pattern, section)[0]`, if any. */
  function FindYear(t: string): (y: Option<string>)
    ensures y.Some? ==> |y.value| == 4 && AllDigits(y.value) && (y.value[..2] == "19" || y.value[..2] == "20")
    ensures y.Some? ==> Contains(t, y.value)
    ensures y.None? <==> forall p :: 0 <= p <= |t| ==> YearAt(t, p).None?
    ensures y.Some? ==> exists q :: 0 <= q <= |t| && YearAt(t, q) == y && forall k :: 0 <= k < q ==> YearAt(t, k).None?
  {
    var at := p => YearAt(t, p);
    assert forall p :: at(p) == YearAt(t, p);
    FirstMatch(at, |t|)
  }
}
