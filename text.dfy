/** Character classes, string helpers and decimal conversions shared by the
    requirement miner, the scorer and the resume extractor.

    Python's `str.lower`, `str.strip`, `str.split` and the regular-expression
    classes `\s`, `\d` and `\w` are Unicode-aware; here they are stated over
    ASCII (see README, "Left out"). */
module Text {

  datatype Option<T> = None | Some(value: T)

  // ---------------------------------------------------------------- classes

  /** Whitespace: `\s` and `str.isspace` on ASCII, which include the
      separators 0x1C to 0x1F. */
  predicate IsSpace(c: char) {
    c == ' ' || c == '\t' || c == '\n' || c == '\r' || c == '\U{B}' || c == '\U{C}'
    || ('\U{1C}' <= c <= '\U{1F}')
  }

  predicate IsDigit(c: char) { '0' <= c <= '9' }

  predicate IsUpper(c: char) { 'A' <= c <= 'Z' }

  /** `[a-zA-Z]` */
  predicate IsLetter(c: char) { 'a' <= c <= 'z' || 'A' <= c <= 'Z' }

  /** `\w`: letters, digits and the underscore. */
  predicate IsWordChar(c: char) { IsLetter(c) || IsDigit(c) || c == '_' }

  predicate IsLetterOrSpace(c: char) { IsLetter(c) || IsSpace(c) }

  predicate AllSpace(s: string) { forall i :: 0 <= i < |s| ==> IsSpace(s[i]) }

  predicate AllDigits(s: string) { forall i :: 0 <= i < |s| ==> IsDigit(s[i]) }

  predicate NoUpper(s: string) { forall i :: 0 <= i < |s| ==> !IsUpper(s[i]) }

  /** Every character of `f` occurs in `s`. */
  predicate CharsWithin(f: string, s: string) { forall c :: c in f ==> c in s }

  /** No character of `f` is in `banned`. */
  predicate Avoids(f: string, banned: set<char>) { forall c :: c in f ==> c !in banned }

  predicate NoDuplicates<T(==)>(xs: seq<T>) {
    forall i, j :: 0 <= i < j < |xs| ==> xs[i] != xs[j]
  }

  // ------------------------------------------------------------ case mapping

  function LowerChar(c: char): (d: char)
    ensures !IsUpper(d)
    ensures !IsUpper(c) ==> d == c
    ensures IsLetter(c) <==> IsLetter(d)
  {
    if IsUpper(c) then (c as int + 32) as char else c
  }

  /** `s.lower()` */
  function Lower(s: string): (r: string)
    ensures |r| == |s|
    ensures forall i :: 0 <= i < |s| ==> r[i] == LowerChar(s[i])
    ensures NoUpper(r)
  {
    seq(|s|, i requires 0 <= i < |s| => LowerChar(s[i]))
  }

  /** Lower-casing twice is lower-casing once. */
  lemma LowerIdempotent(s: string)
    ensures Lower(Lower(s)) == Lower(s)
  {
  }

  // ------------------------------------------------------- scanning helpers

  /** End of the longest run of characters satisfying `f` that starts at `i`. */
  function RunEnd(s: string, i: nat, f: char -> bool): (j: nat)
    requires i <= |s|
    ensures i <= j <= |s|
    ensures forall k :: i <= k < j ==> f(s[k])
    ensures j < |s| ==> !f(s[j])
    decreases |s| - i
  {
    if i < |s| && f(s[i]) then RunEnd(s, i + 1, f) else i
  }

  /** `pat` occurs in `s` starting at position `i`. */
  predicate PrefixAt(s: string, i: nat, pat: string) {
    i + |pat| <= |s| && s[i..i + |pat|] == pat
  }

  /** Python's `pat in s`. */
  predicate Contains(s: string, pat: string) {
    exists i: nat | i <= |s| :: PrefixAt(s, i, pat)
  }

  /** `s.find(pat, p)`: the least position from `p` at which `pat` occurs. */
  function FindFrom(s: string, pat: string, p: nat): (r: Option<nat>)
    ensures r.Some? ==> p <= r.value <= |s| && PrefixAt(s, r.value, pat)
    ensures r.Some? ==> forall k :: p <= k < r.value ==> !PrefixAt(s, k, pat)
    ensures r.None? <==> forall k :: p <= k <= |s| ==> !PrefixAt(s, k, pat)
    decreases |s| + 1 - p
  {
    if p > |s| then None
    else if PrefixAt(s, p, pat) then Some(p)
    else FindFrom(s, pat, p + 1)
  }

  /** `pat in s` holds exactly when `s.find(pat)` finds it. */
  lemma FindContains(s: string, pat: string)
    ensures FindFrom(s, pat, 0).Some? <==> Contains(s, pat)
  {
  }

  /** The least position `q` in `[p, n]` at which `at` succeeds: the way
      `re.search` and the first element of `re.findall` pick the leftmost
      match of a pattern. */
  function FirstHit<T>(at: nat -> Option<T>, p: nat, n: nat): (r: Option<nat>)
    ensures r.Some? ==> p <= r.value <= n && at(r.value).Some?
    ensures r.Some? ==> forall k :: p <= k < r.value ==> at(k).None?
    ensures r.None? <==> forall k :: p <= k <= n ==> at(k).None?
    decreases n + 1 - p
  {
    if p > n then None
    else if at(p).Some? then Some(p)
    else FirstHit(at, p + 1, n)
  }

  /** Two least positions from `w` at which `P` holds are the same. */
  lemma LeastUnique(P: nat -> bool, w: nat, e: nat, j: nat)
    requires w <= e && P(e) && forall i :: w <= i < e ==> !P(i)
    requires w <= j && P(j) && forall i :: w <= i < j ==> !P(i)
    ensures e == j
  {
  }

  /** The result of `at` at its first success in `[0, n]`. */
  function FirstMatch<T>(at: nat -> Option<T>, n: nat): (r: Option<T>)
    ensures r.None? <==> forall k :: 0 <= k <= n ==> at(k).None?
    ensures r.Some? ==> exists q :: 0 <= q <= n && at(q) == r && forall k :: 0 <= k < q ==> at(k).None?
  {
    match FirstHit(at, 0, n)
    case Some(q) => at(q)
    case None => None
  }

  /** `\d{n}` occurs at position `i`. */
  predicate DigitRunAt(s: string, i: nat, n: nat) {
    i + n <= |s| && AllDigits(s[i..i + n])
  }

  lemma AllDigitsConcat(a: string, b: string)
    requires AllDigits(a) && AllDigits(b)
    ensures AllDigits(a + b)
  {
  }

  /** `re.search(r'\d{n}', s)` finds something. */
  predicate HasDigitRun(s: string, n: nat) {
    exists i: nat | i <= |s| :: DigitRunAt(s, i, n)
  }

  // ------------------------------------------------------------- stripping

  /** Start of the trailing whitespace of `s[..j]`. */
  function TrailStart(s: string, j: nat): (b: nat)
    requires j <= |s|
    ensures b <= j
    ensures forall k :: b <= k < j ==> IsSpace(s[k])
    ensures b > 0 ==> !IsSpace(s[b - 1])
  {
    if j > 0 && IsSpace(s[j - 1]) then TrailStart(s, j - 1) else j
  }

  /** `s.strip()`: `s` without its leading and trailing whitespace. */
  function Strip(s: string): (r: string)
    ensures r == [] || (!IsSpace(r[0]) && !IsSpace(r[|r| - 1]))
    ensures r == [] <==> AllSpace(s)
    ensures CharsWithin(r, s)
  {
    var a := RunEnd(s, 0, IsSpace);
    if a == |s| then []
    else
      s[a..TrailStart(s, |s|)]
  }

  /** Stripping removes only the leading and trailing whitespace: the result
      is the slice of `s` between them. */
  lemma StripSlice(s: string)
    ensures exists i, j :: 0 <= i <= j <= |s| && Strip(s) == s[i..j] && AllSpace(s[..i]) && AllSpace(s[j..])
  {
    var a := RunEnd(s, 0, IsSpace);
    if a == |s| {
      assert Strip(s) == s[0..0] && AllSpace(s[..0]) && AllSpace(s[0..]);
    } else {
      var b := TrailStart(s, |s|);
      assert Strip(s) == s[a..b] && AllSpace(s[..a]) && AllSpace(s[b..]);
    }
  }

  /** Stripping a string without surrounding whitespace changes nothing. */
  lemma StripTrimmed(s: string)
    requires s != [] && !IsSpace(s[0]) && !IsSpace(s[|s| - 1])
    ensures Strip(s) == s
  {
    assert RunEnd(s, 0, IsSpace) == 0;
    assert TrailStart(s, |s|) == |s|;
  }

  /** `s.replace(c, '')` */
  function RemoveChar(s: string, c: char): (r: string)
    ensures c !in r
    ensures CharsWithin(r, s)
    ensures c !in s ==> r == s
  {
    if s == [] then []
    else
      (if s[0] == c then [] else [s[0]]) + RemoveChar(s[1..], c)
  }

  /** Deleting a character works piece by piece: together with the clause
      that text without `c` is left as it is, this fixes the result. */
  lemma {:induction false} RemoveCharConcat(a: string, b: string, c: char)
    ensures RemoveChar(a + b, c) == RemoveChar(a, c) + RemoveChar(b, c)
  {
    if a == [] {
      assert a + b == b;
    } else {
      var head := if a[0] == c then [] else [a[0]];
      assert a == [a[0]] + a[1..];
      assert a + b == [a[0]] + (a[1..] + b);
      RemoveCharConcat(a[1..], b, c);
      RemoveCharCons(a[0], a[1..] + b, c);
      RemoveCharCons(a[0], a[1..], c);
      ConcatAssociative(head, RemoveChar(a[1..], c), RemoveChar(b, c));
    }
  }

  /** One step of the deletion. */
  lemma RemoveCharCons(x: char, rest: string, c: char)
    ensures RemoveChar([x] + rest, c) == (if x == c then [] else [x]) + RemoveChar(rest, c)
  {
    assert ([x] + rest)[1..] == rest;
  }

  // ------------------------------------------------------ splitting, joining

  /** `re.split('[...]', s)` on a character class `seps`: the pieces between
      separators, empty pieces included. */
  function SplitOn(s: string, seps: set<char>): (parts: seq<string>)
    ensures |parts| >= 1
    ensures forall k :: 0 <= k < |parts| ==> CharsWithin(parts[k], s) && Avoids(parts[k], seps)
    decreases |s|
  {
    if s == [] then [[]]
    else
      var rest := SplitOn(s[1..], seps);
      assert forall c :: c in s[1..] ==> c in s;
      if s[0] in seps then [[]] + rest
      else [[s[0]] + rest[0]] + rest[1..]
  }

  /** A text without separators is one piece, and a separator cuts the text
      into the pieces before it and the pieces after it; together these
      fix the result. */
  lemma SplitOnWhole(s: string, seps: set<char>)
    requires Avoids(s, seps)
    ensures SplitOn(s, seps) == [s]
    decreases |s|
  {
    if s != [] {
      SplitOnWhole(s[1..], seps);
      assert [s[0]] + s[1..] == s;
    }
  }

  lemma {:induction false} SplitOnConcat(a: string, c: char, b: string, seps: set<char>)
    requires c in seps
    ensures SplitOn(a + [c] + b, seps) == SplitOn(a, seps) + SplitOn(b, seps)
    decreases |a|
  {
    var s := a + [c] + b;
    if a == [] {
      assert s[1..] == b;
    } else {
      assert s[1..] == a[1..] + [c] + b;
      SplitOnConcat(a[1..], c, b, seps);
      var front := SplitOn(a[1..], seps);
      var rest := SplitOn(s[1..], seps);
      var back := SplitOn(b, seps);
      assert s[0] == a[0];
      assert rest == front + back;
      if a[0] in seps {
        assert SplitOn(s, seps) == [[]] + rest;
        assert SplitOn(a, seps) == [[]] + front;
      } else {
        assert rest[0] == front[0];
        assert rest[1..] == front[1..] + back;
        assert SplitOn(s, seps) == [[a[0]] + front[0]] + (front[1..] + back);
        assert SplitOn(a, seps) == [[a[0]] + front[0]] + front[1..];
      }
    }
  }

  /** `[p.strip() for p in pieces if p.strip()]` */
  function StrippedNonEmpty(pieces: seq<string>): (r: seq<string>)
    ensures |r| <= |pieces|
    ensures forall i :: 0 <= i < |r| ==> r[i] != [] && !IsSpace(r[i][0]) && !IsSpace(r[i][|r[i]| - 1])
    ensures forall i :: 0 <= i < |r| ==> exists k :: 0 <= k < |pieces| && CharsWithin(r[i], pieces[k])
  {
    if pieces == [] then []
    else
      var rest := StrippedNonEmpty(pieces[1..]);
      assert forall i :: 0 <= i < |rest| ==> exists k :: 0 <= k < |pieces| && CharsWithin(rest[i], pieces[k]) by {
        forall i | 0 <= i < |rest| ensures exists k :: 0 <= k < |pieces| && CharsWithin(rest[i], pieces[k]) {
          var k :| 0 <= k < |pieces[1..]| && CharsWithin(rest[i], pieces[1..][k]);
          assert pieces[1..][k] == pieces[k + 1];
        }
      }
      var first := Strip(pieces[0]);
      if first == [] then rest else [first] + rest
  }

  /** One step of the filter. */
  lemma StrippedNonEmptyCons(x: string, rest: seq<string>)
    ensures StrippedNonEmpty([x] + rest) == (if Strip(x) == [] then [] else [Strip(x)]) + StrippedNonEmpty(rest)
  {
    assert ([x] + rest)[1..] == rest;
  }

  lemma ConcatAssociative<T>(x: seq<T>, y: seq<T>, z: seq<T>)
    ensures x + (y + z) == (x + y) + z
  {
  }

  lemma SplitAround<T>(xs: seq<T>, k: nat)
    requires k < |xs|
    ensures xs == xs[..k] + ([xs[k]] + xs[k + 1..])
  {
  }

  /** The filter works piece by piece. */
  lemma {:induction false} StrippedNonEmptyConcat(a: seq<string>, b: seq<string>)
    ensures StrippedNonEmpty(a + b) == StrippedNonEmpty(a) + StrippedNonEmpty(b)
  {
    if a == [] {
      assert a + b == b;
    } else {
      assert a == [a[0]] + a[1..];
      assert a + b == [a[0]] + (a[1..] + b);
      var head := if Strip(a[0]) == [] then [] else [Strip(a[0])];
      StrippedNonEmptyConcat(a[1..], b);
      StrippedNonEmptyCons(a[0], a[1..] + b);
      StrippedNonEmptyCons(a[0], a[1..]);
      ConcatAssociative(head, StrippedNonEmpty(a[1..]), StrippedNonEmpty(b));
    }
  }

  /** Pieces that are already stripped and non-empty all pass the filter
      unchanged. */
  lemma {:induction false} StrippedNonEmptyTrimmed(pieces: seq<string>)
    requires forall i :: 0 <= i < |pieces| ==> pieces[i] != [] && Strip(pieces[i]) == pieces[i]
    ensures StrippedNonEmpty(pieces) == pieces
  {
    if pieces != [] {
      assert pieces == [pieces[0]] + pieces[1..];
      assert forall i :: 0 <= i < |pieces[1..]| ==> pieces[1..][i] == pieces[i + 1];
      StrippedNonEmptyTrimmed(pieces[1..]);
      StrippedNonEmptyCons(pieces[0], pieces[1..]);
    }
  }

  /** The filter keeps every piece whose stripped form is non-empty, in
      place: the pieces before it come first and those after it follow. */
  lemma StrippedNonEmptyKeeps(pieces: seq<string>, k: nat)
    requires k < |pieces| && Strip(pieces[k]) != []
    ensures StrippedNonEmpty(pieces) ==
              StrippedNonEmpty(pieces[..k]) + [Strip(pieces[k])] + StrippedNonEmpty(pieces[k + 1..])
  {
    SplitAround(pieces, k);
    StrippedNonEmptyConcat(pieces[..k], [pieces[k]] + pieces[k + 1..]);
    StrippedNonEmptyCons(pieces[k], pieces[k + 1..]);
    assert StrippedNonEmpty([pieces[k]] + pieces[k + 1..]) == [Strip(pieces[k])] + StrippedNonEmpty(pieces[k + 1..]);
    ConcatAssociative(StrippedNonEmpty(pieces[..k]), [Strip(pieces[k])], StrippedNonEmpty(pieces[k + 1..]));
  }

  /** The filter drops a piece that strips to nothing. */
  lemma StrippedNonEmptyDrops(pieces: seq<string>, k: nat)
    requires k < |pieces| && Strip(pieces[k]) == []
    ensures StrippedNonEmpty(pieces) == StrippedNonEmpty(pieces[..k]) + StrippedNonEmpty(pieces[k + 1..])
  {
    SplitAround(pieces, k);
    StrippedNonEmptyConcat(pieces[..k], [pieces[k]] + pieces[k + 1..]);
    StrippedNonEmptyCons(pieces[k], pieces[k + 1..]);
  }

  /** `sep.join(parts)` */
  function Join(parts: seq<string>, sep: string): (r: string)
    ensures parts == [] ==> r == []
    ensures |parts| == 1 ==> r == parts[0]
  {
    if parts == [] then []
    else if |parts| == 1 then parts[0]
    else parts[0] + sep + Join(parts[1..], sep)
  }

  /** Splitting on one separator and joining with it gives the text back:
      `'\n'.join(s.split('\n')) == s`. */
  lemma {:induction false} SplitJoin(s: string, c: char)
    ensures Join(SplitOn(s, {c}), [c]) == s
  {
    if s != [] {
      var rest := SplitOn(s[1..], {c});
      SplitJoin(s[1..], c);
      if s[0] == c {
        assert SplitOn(s, {c}) == [[]] + rest;
        assert ([[]] + rest)[1..] == rest;
      } else {
        var parts := SplitOn(s, {c});
        assert parts == [[s[0]] + rest[0]] + rest[1..];
        if |rest| > 1 {
          assert parts[1..] == rest[1..];
          assert Join(rest, [c]) == rest[0] + [c] + Join(rest[1..], [c]);
        }
      }
    }
  }

  /** `len(s.split())`: the number of maximal runs of non-whitespace,
      counted at the last character of each run. */
  function WordCount(s: string): (n: nat)
    ensures n <= |s|
    ensures n == 0 <==> AllSpace(s)
  {
    if s == [] then 0
    else (if !IsSpace(s[0]) && (|s| == 1 || IsSpace(s[1])) then 1 else 0) + WordCount(s[1..])
  }

  // ---------------------------------------------------------------- numbers

  function DigitValue(c: char): (d: nat)
    requires IsDigit(c)
    ensures d < 10
  {
    c as int - '0' as int
  }

  function DigitChar(d: nat): (c: char)
    requires d < 10
    ensures IsDigit(c) && DigitValue(c) == d
  {
    ('0' as int + d) as char
  }

  /** `int(s)` for a non-empty string of decimal digits. */
  function ParseNat(s: string): nat
    requires AllDigits(s)
  {
    if s == [] then 0 else ParseNat(s[..|s| - 1]) * 10 + DigitValue(s[|s| - 1])
  }

  /** `str(n)` for `n >= 0`: decimal digits without leading zeros. */
  function NatToString(n: nat): (s: string)
    ensures |s| >= 1 && AllDigits(s)
    ensures s[0] == '0' ==> n == 0
  {
    if n < 10 then [DigitChar(n)] else NatToString(n / 10) + [DigitChar(n % 10)]
  }

  /** `int(str(n)) == n` */
  lemma {:induction false} ParseNatToString(n: nat)
    ensures ParseNat(NatToString(n)) == n
  {
    var s := NatToString(n);
    if n >= 10 {
      ParseNatToString(n / 10);
      assert s[..|s| - 1] == NatToString(n / 10);
    }
  }

  /** `(?:years|yrs?)` at `c`, alternatives tried in order; the result is
      where the unit word ends. */
  function YearsWordEnd(t: string, c: nat): (u: Option<nat>)
    ensures u.Some? ==> c + 2 <= u.value <= |t|
  {
    if PrefixAt(t, c, "years") then Some(c + 5)
    else if PrefixAt(t, c, "yrs") then Some(c + 3)
    else if PrefixAt(t, c, "yr") then Some(c + 2)
    else None
  }

  /** `str(i)` for any integer. */
  function IntToString(i: int): (s: string)
    ensures |s| >= 1
    ensures s[0] == '-' <==> i < 0
  {
    if i < 0 then "-" + NatToString(-i) else NatToString(i)
  }

  /** `int(x)` for a float: truncation toward zero. */
  function Trunc(x: real): (n: int)
    ensures x >= 0.0 ==> n >= 0 && n as real <= x < n as real + 1.0
    ensures x < 0.0 ==> n <= 0 && n as real - 1.0 < x <= n as real
  {
    if x >= 0.0 then x.Floor else -((-x).Floor)
  }

  // ------------------------------------------------------------ collections

    /** The set of the images of a sequence's elements. */
  function ImageSet<T, U(==)>(xs: seq<T>, f: T -> U): set<U> {
    if xs == [] then {} else ImageSet(xs[..|xs| - 1], f) + {f(xs[|xs| - 1])}
  }

  lemma {:induction false} ImageSetMembers<T, U>(xs: seq<T>, f: T -> U, y: U)
    ensures y in ImageSet(xs, f) <==> exists i :: 0 <= i < |xs| && f(xs[i]) == y
  {
    if xs != [] {
      var front := xs[..|xs| - 1];
      ImageSetMembers(front, f, y);
      assert forall i :: 0 <= i < |front| ==> front[i] == xs[i];
    }
  }

  /** `list(s)`: the elements of a set in some order, each once. Python's
      order is that of the hash table, so any order is allowed here. */
  method SetToSeq<T(==)>(s: set<T>) returns (xs: seq<T>)
    ensures |xs| == |s| && NoDuplicates(xs)
    ensures forall i :: 0 <= i < |xs| ==> xs[i] in s
    ensures forall x :: x in s ==> x in xs
  {
    xs := [];
    var rest := s;
    while rest != {}
      invariant rest <= s && NoDuplicates(xs)
      invariant forall i :: 0 <= i < |xs| ==> xs[i] in s && xs[i] !in rest
      invariant forall x :: x in s ==> x in rest || x in xs
      invariant |xs| + |rest| == |s|
      decreases |rest|
    {
      var x :| x in rest;
      xs := xs + [x];
      rest := rest - {x};
    }
  }
}
