/** The organisation's address at sign-up: made from its name or typed, and the
    addresses tried when it is taken. */
module TenantSlug {
  import opened Prelude
  import opened Text

  const TENANT_SLUG_MAX_CHARS: nat := 60

  const FALLBACK_SLUG: string := "organisation"

  predicate IsAlnum(c: char) {
    'a' <= c <= 'z' || '0' <= c <= '9'
  }

  // ── The pattern ──

  function AlnumRun(s: string): (n: nat)
    ensures n <= |s| && (forall k :: 0 <= k < n ==> IsAlnum(s[k])) && (n < |s| ==> !IsAlnum(s[n]))
  {
    if s != "" && IsAlnum(s[0]) then 1 + AlnumRun(s[1..]) else 0
  }

  /** Letters and numbers, then any number of times a hyphen and more of them. */
  predicate MatchesPattern(s: string)
    decreases |s|
  {
    var run := AlnumRun(s);
    run > 0 && (run == |s| || (s[run] == '-' && MatchesPattern(s[run + 1..])))
  }

  predicate IsSlugChar(c: char) {
    IsAlnum(c) || c == '-'
  }

  predicate SlugChars(s: string) {
    forall k :: 0 <= k < |s| ==> IsSlugChar(s[k])
  }

  predicate NoDoubleHyphen(s: string) {
    forall k :: 0 < k < |s| ==> s[k - 1] != '-' || s[k] != '-'
  }

  predicate IsSlug(s: string) {
    s != "" && SlugChars(s) && s[0] != '-' && s[|s| - 1] != '-' && NoDoubleHyphen(s)
  }

  /** What matches the pattern, character by character: no hyphen at either end, no two together. */
  lemma {:induction false} PatternExactly(s: string)
    ensures MatchesPattern(s) <==> IsSlug(s)
    decreases |s|
  {
    var run := AlnumRun(s);
    if 0 < run < |s| && s[run] == '-' {
      PatternExactly(s[run + 1..]);
      PatternAfterHyphen(s, run);
    }
  }

  lemma {:induction false} PatternAfterHyphen(s: string, run: nat)
    requires 0 < run < |s| && s[run] == '-' && forall k :: 0 <= k < run ==> IsAlnum(s[k])
    ensures IsSlug(s[run + 1..]) <==> IsSlug(s)
  {
    var rest := s[run + 1..];
    assert forall k :: 0 <= k < |rest| ==> rest[k] == s[run + 1 + k];
    if IsSlug(rest) {
      forall k | run < k < |s| ensures IsSlugChar(s[k]) {
        assert rest[k - run - 1] == s[k];
      }
      forall k | 0 < k < |s| ensures s[k - 1] != '-' || s[k] != '-' {
        if k > run + 1 {
          assert rest[k - run - 2] == s[k - 1] && rest[k - run - 1] == s[k];
        }
      }
    }
    if IsSlug(s) {
      assert rest != "" && rest[0] == s[run + 1];
      forall k | 0 < k < |rest| ensures rest[k - 1] != '-' || rest[k] != '-' {
        assert rest[k - 1] == s[run + k] && rest[k] == s[run + 1 + k];
      }
    }
  }

  // ── Making one from a name ──

  function SkipOthers(s: string): (r: string)
    ensures |r| <= |s| && (r != "" ==> IsAlnum(r[0]))
  {
    if s == "" || IsAlnum(s[0]) then s else SkipOthers(s[1..])
  }

  /** Every run of other characters becomes one hyphen. */
  function Hyphenated(s: string): string
    decreases |s|
  {
    if s == "" then ""
    else if IsAlnum(s[0]) then [s[0]] + Hyphenated(s[1..])
    else "-" + Hyphenated(SkipOthers(s[1..]))
  }

  /** The hyphen at the start and the one at the end, if there. */
  function WithoutEndHyphens(s: string): string {
    var t := if s != "" && s[0] == '-' then s[1..] else s;
    if t != "" && t[|t| - 1] == '-' then t[..|t| - 1] else t
  }

  /** `plain` lowercases and drops accents. */
  function Slugify(plain: string -> string, name: string): string {
    WithoutEndHyphens(Hyphenated(Trim(plain(name))))
  }

  function Min(a: int, b: int): int {
    if a < b then a else b
  }

  /** slice(0, max): a negative end counts from the end of the text. */
  function Slice(s: string, max: int): string {
    if max >= 0 then s[..Min(max, |s|)] else s[..Max(0, |s| + max)]
  }

  function DropEndHyphens(s: string): string {
    if s != "" && s[|s| - 1] == '-' then DropEndHyphens(s[..|s| - 1]) else s
  }

  function TrimToLength(slug: string, max: int): string {
    DropEndHyphens(Slice(slug, max))
  }

  function FromName(plain: string -> string, name: string): string {
    var slug := TrimToLength(Slugify(plain, name), TENANT_SLUG_MAX_CHARS);
    if slug == "" then FALLBACK_SLUG else slug
  }

  /** The typed address, checked; or one made from the name when none is typed. */
  function ResolveBaseSlug(plain: string -> string, lower: string -> string, typed: Option<string>,
      name: string): Option<string> {
    if typed.None? then Some(FromName(plain, name))
    else
      var slug := lower(Trim(typed.value));
      if slug == "" then Some(FromName(plain, name))
      else if |slug| > TENANT_SLUG_MAX_CHARS || !MatchesPattern(slug) then None
      else Some(slug)
  }

  lemma {:induction false} HyphenatedIsClean(s: string)
    ensures SlugChars(Hyphenated(s)) && NoDoubleHyphen(Hyphenated(s))
    ensures s != "" && IsAlnum(s[0]) ==> Hyphenated(s) != "" && Hyphenated(s)[0] == s[0]
    ensures s == "" <==> Hyphenated(s) == ""
    decreases |s|
  {
    if s != "" {
      if IsAlnum(s[0]) {
        HyphenatedIsClean(s[1..]);
        OneBefore(s[0], Hyphenated(s[1..]));
      } else {
        HyphenatedIsClean(SkipOthers(s[1..]));
        OneBefore('-', Hyphenated(SkipOthers(s[1..])));
      }
    }
  }

  lemma {:induction false} OneBefore(c: char, s: string)
    requires IsSlugChar(c) && SlugChars(s) && NoDoubleHyphen(s) && (c == '-' && s != "" ==> s[0] != '-')
    ensures SlugChars([c] + s) && NoDoubleHyphen([c] + s)
  {
    forall k | 0 < k < |[c] + s| ensures ([c] + s)[k - 1] != '-' || ([c] + s)[k] != '-' {
      if k > 1 {
        assert ([c] + s)[k - 1] == s[k - 2] && ([c] + s)[k] == s[k - 1];
      }
    }
  }

  lemma {:induction false} SliceIsClean(s: string, from: nat, to: nat)
    requires from <= to <= |s| && SlugChars(s) && NoDoubleHyphen(s)
    ensures SlugChars(s[from..to]) && NoDoubleHyphen(s[from..to])
  {
    forall k | 0 < k < to - from ensures s[from..to][k - 1] != '-' || s[from..to][k] != '-' {
      assert s[from..to][k - 1] == s[from + k - 1] && s[from..to][k] == s[from + k];
    }
  }

  lemma {:induction false} SlugifiedIsSlug(plain: string -> string, name: string)
    ensures var slug := Slugify(plain, name);
            slug == "" || IsSlug(slug)
  {
    var s := Hyphenated(Trim(plain(name)));
    HyphenatedIsClean(Trim(plain(name)));
    var from := if s != "" && s[0] == '-' then 1 else 0;
    assert s[from..|s|] == s[from..];
    SliceIsClean(s, from, |s|);
    var t := s[from..];
    var to := if t != "" && t[|t| - 1] == '-' then |t| - 1 else |t|;
    SliceIsClean(t, 0, to);
    assert WithoutEndHyphens(s) == t[0..to];
  }

  lemma {:induction false} DropsOneHyphen(s: string)
    requires |s| > 1 && s[|s| - 1] == '-' && s[|s| - 2] != '-'
    ensures DropEndHyphens(s) == s[..|s| - 1]
  {
    assert s[..|s| - 1][|s| - 2] == s[|s| - 2];
  }

  /** A slug's beginning, less the hyphens it then ends in, is a slug. */
  lemma {:induction false} TrimmedIsSlug(s: string, max: int)
    requires IsSlug(s) && max > 0
    ensures IsSlug(TrimToLength(s, max)) && |TrimToLength(s, max)| <= max
    ensures TrimToLength(s, max) == if max < |s| && s[max - 1] == '-' then s[..max - 1] else Slice(s, max)
  {
    var n := Min(max, |s|);
    SliceIsClean(s, 0, n);
    assert s[0..n] == s[..n];
    if s[n - 1] == '-' {
      assert n > 1 && s[n - 2] != '-';
      SliceIsClean(s, 0, n - 1);
      DropsOneHyphen(s[..n]);
      assert s[..n][..n - 1] == s[..n - 1] == s[0..n - 1];
    }
  }

  lemma {:induction false} FallbackIsSlug()
    ensures IsSlug(FALLBACK_SLUG) && |FALLBACK_SLUG| <= TENANT_SLUG_MAX_CHARS
  {
  }

  /** Whatever is typed or named, a base that is accepted is a slug within the
      limit: the text typed, lowercased, when it is one, and refused when it is
      not; and a name always makes one. */
  lemma {:induction false} BaseIsSlug(plain: string -> string, lower: string -> string, typed: Option<string>,
      name: string)
    ensures var base := ResolveBaseSlug(plain, lower, typed, name);
            var blank := typed.None? || lower(Trim(typed.value)) == "";
            && (base.Some? ==> IsSlug(base.value) && |base.value| <= TENANT_SLUG_MAX_CHARS)
            && (blank ==> base.Some?)
            && (!blank ==> base == var slug := lower(Trim(typed.value)); if IsSlug(slug) &&
                |slug| <= TENANT_SLUG_MAX_CHARS then Some(slug) else None)
  {
    if typed.Some? {
      PatternExactly(lower(Trim(typed.value)));
    }
    SlugifiedIsSlug(plain, name);
    FallbackIsSlug();
    if Slugify(plain, name) != "" {
      TrimmedIsSlug(Slugify(plain, name), TENANT_SLUG_MAX_CHARS);
    }
  }

  lemma {:induction false} SlugKeepsHyphens(s: string)
    requires SlugChars(s) && NoDoubleHyphen(s) && (s != "" ==> s[|s| - 1] != '-')
    ensures Hyphenated(s) == s
    decreases |s|
  {
    if s != "" {
      SliceIsClean(s, 1, |s|);
      assert s[1..|s|] == s[1..] && s == [s[0]] + s[1..];
      if s[0] == '-' {
        assert s[1] != '-' && SkipOthers(s[1..]) == s[1..];
      }
      SlugKeepsHyphens(s[1..]);
    }
  }

  /** A name that is already an address makes that address. */
  lemma {:induction false} SlugMakesItself(plain: string -> string, slug: string)
    requires IsSlug(slug) && |slug| <= TENANT_SLUG_MAX_CHARS && plain(slug) == slug
    ensures FromName(plain, slug) == slug
  {
    TrimTrims(slug);
    SlugKeepsHyphens(slug);
    TrimmedIsSlug(slug, TENANT_SLUG_MAX_CHARS);
  }

  /** A text's letters and numbers, in order. */
  function Alnums(s: string): string {
    if s == "" then "" else (if IsAlnum(s[0]) then [s[0]] else "") + Alnums(s[1..])
  }

  /** Only lowercase Latin letters and digits are kept by an address, and each of them is. */
  lemma {:induction false} AlnumsOneByOne(s: string, c: char)
    ensures Alnums("") == ""
    ensures Alnums(s + [c]) == Alnums(s) + if 97 <= c as int <= 122 || 48 <= c as int <= 57 then [c] else ""
  {
    AlnumsJoin(s, [c]);
    assert [c][1..] == "";
  }

  lemma {:induction false} JoinedParts(a: string, b: string)
    ensures a == "" ==> a + b == b
    ensures a != "" ==> (a + b)[0] == a[0] && (a + b)[1..] == a[1..] + b
  {
  }

  lemma {:induction false} AlnumsJoin(a: string, b: string)
    ensures Alnums(a + b) == Alnums(a) + Alnums(b)
  {
    JoinedParts(a, b);
    if a != "" {
      AlnumsJoin(a[1..], b);
    }
  }

  lemma {:induction false} AlnumsLast(s: string)
    requires s != "" && !IsAlnum(s[|s| - 1])
    ensures Alnums(s[..|s| - 1]) == Alnums(s)
  {
    AlnumsJoin(s[..|s| - 1], [s[|s| - 1]]);
    assert s == s[..|s| - 1] + [s[|s| - 1]];
  }

  lemma {:induction false} TrimKeepsAlnums(s: string)
    ensures Alnums(TrimStart(s)) == Alnums(s) && Alnums(TrimEnd(s)) == Alnums(s)
    decreases |s|
  {
    if s != "" && IsSpace(s[0]) {
      TrimKeepsAlnums(s[1..]);
    }
    if s != "" && IsSpace(s[|s| - 1]) {
      AlnumsLast(s);
      TrimKeepsAlnums(s[..|s| - 1]);
    }
  }

  lemma {:induction false} HyphenatedKeepsAlnums(s: string)
    ensures Alnums(Hyphenated(s)) == Alnums(s) && Alnums(SkipOthers(s)) == Alnums(s)
    decreases |s|
  {
    if s != "" {
      if IsAlnum(s[0]) {
        HyphenatedKeepsAlnums(s[1..]);
        assert Hyphenated(s)[1..] == Hyphenated(s[1..]);
      } else {
        HyphenatedKeepsAlnums(s[1..]);
        HyphenatedKeepsAlnums(SkipOthers(s[1..]));
        assert Hyphenated(s)[1..] == Hyphenated(SkipOthers(s[1..]));
      }
    }
  }

  /** Whatever the name, its slug has exactly its letters and numbers, in order,
      as they are once lowercased and without accents. */
  lemma {:induction false} SlugKeepsEveryLetter(plain: string -> string, name: string)
    ensures Alnums(Slugify(plain, name)) == Alnums(plain(name))
  {
    TrimKeepsAlnums(plain(name));
    TrimKeepsAlnums(TrimStart(plain(name)));
    HyphenatedKeepsAlnums(Trim(plain(name)));
    var s := Hyphenated(Trim(plain(name)));
    var t := if s != "" && s[0] == '-' then s[1..] else s;
    if t != "" && t[|t| - 1] == '-' {
      AlnumsLast(t);
    }
  }

  // ── The addresses tried ──

  function Suffix(n: nat): string {
    "-" + Digits(n)
  }

  function SlugCandidate(base: string, n: nat): string {
    if n == 1 then base else TrimToLength(base, TENANT_SLUG_MAX_CHARS - |Suffix(n)|) + Suffix(n)
  }

  /** Every address tried is itself a slug within the limit. */
  lemma {:induction false} CandidateIsSlug(base: string, n: nat)
    requires IsSlug(base) && |base| <= TENANT_SLUG_MAX_CHARS && n > 0 && |Suffix(n)| < TENANT_SLUG_MAX_CHARS
    ensures IsSlug(SlugCandidate(base, n)) && |SlugCandidate(base, n)| <= TENANT_SLUG_MAX_CHARS
  {
    if n > 1 {
      TrimmedIsSlug(base, TENANT_SLUG_MAX_CHARS - |Suffix(n)|);
      Suffixed(TrimToLength(base, TENANT_SLUG_MAX_CHARS - |Suffix(n)|), Digits(n));
    }
  }

  lemma {:induction false} Suffixed(stem: string, digits: string)
    requires IsSlug(stem) && AllDigits(digits)
    ensures IsSlug(stem + ("-" + digits))
  {
    var s := stem + ("-" + digits);
    forall k | 0 <= k < |s| ensures IsSlugChar(s[k]) {
      if k > |stem| {
        assert s[k] == digits[k - |stem| - 1] && IsDigit(s[k]);
      }
    }
    forall k | 0 < k < |s| ensures s[k - 1] != '-' || s[k] != '-' {
      if k > |stem| {
        assert s[k] == digits[k - |stem| - 1] && IsDigit(s[k]);
      }
    }
    assert s[|s| - 1] == digits[|digits| - 1];
  }

  function AfterLastHyphen(s: string): string {
    if s == "" || s[|s| - 1] == '-' then "" else AfterLastHyphen(s[..|s| - 1]) + [s[|s| - 1]]
  }

  lemma {:induction false} DigitsAreLast(stem: string, digits: string)
    requires forall k :: 0 <= k < |digits| ==> IsDigit(digits[k])
    ensures AfterLastHyphen(stem + ("-" + digits)) == digits
  {
    var s := stem + ("-" + digits);
    if digits != "" {
      var fewer := digits[..|digits| - 1];
      DigitsAreLast(stem, fewer);
      assert s[..|s| - 1] == stem + ("-" + fewer);
      assert s[|s| - 1] == digits[|digits| - 1] && IsDigit(digits[|digits| - 1]);
    }
  }

  /** No two numbered candidates are the same. */
  lemma {:induction false} NumberedCandidatesDiffer(base: string, n: nat, m: nat)
    requires n > 1 && m > 1 && SlugCandidate(base, n) == SlugCandidate(base, m)
    ensures n == m
  {
    DigitsAreLast(TrimToLength(base, TENANT_SLUG_MAX_CHARS - |Suffix(n)|), Digits(n));
    DigitsAreLast(TrimToLength(base, TENANT_SLUG_MAX_CHARS - |Suffix(m)|), Digits(m));
    DigitsReadBack(n);
    DigitsReadBack(m);
  }

  predicate EndsWith(s: string, suffix: string) {
    |suffix| <= |s| && s[|s| - |suffix|..] == suffix
  }

  /** A numbered candidate is the base over again exactly when the base is 59 or
      60 characters long and already ends in that number. */
  lemma {:induction false} CandidateRepeatsBaseExactly(base: string, n: nat)
    requires IsSlug(base) && |base| <= TENANT_SLUG_MAX_CHARS && n > 1 && |Suffix(n)| < TENANT_SLUG_MAX_CHARS
    ensures SlugCandidate(base, n) == base <==> |base| >= TENANT_SLUG_MAX_CHARS - 1 && EndsWith(base, Suffix(n))
  {
    var max := TENANT_SLUG_MAX_CHARS - |Suffix(n)|;
    var stem := TrimToLength(base, max);
    TrimmedIsSlug(base, max);
    if SlugCandidate(base, n) == base {
      assert (stem + Suffix(n))[|stem|..] == Suffix(n);
      assert base[|base| - |Suffix(n)|..] == Suffix(n);
      StemIsLong(base, n);
    }
    if |base| >= TENANT_SLUG_MAX_CHARS - 1 && EndsWith(base, Suffix(n)) {
      SuffixFitsBack(base, n);
    }
  }

  lemma {:induction false} StemIsLong(base: string, n: nat)
    requires IsSlug(base) && |base| <= TENANT_SLUG_MAX_CHARS && n > 1 && |Suffix(n)| < TENANT_SLUG_MAX_CHARS
    requires SlugCandidate(base, n) == base
    ensures |base| >= TENANT_SLUG_MAX_CHARS - 1
  {
    TrimmedIsSlug(base, TENANT_SLUG_MAX_CHARS - |Suffix(n)|);
  }

  lemma {:induction false} SuffixFitsBack(base: string, n: nat)
    requires IsSlug(base) && TENANT_SLUG_MAX_CHARS - 1 <= |base| <= TENANT_SLUG_MAX_CHARS && n > 1 &&
               |Suffix(n)| < TENANT_SLUG_MAX_CHARS
    requires EndsWith(base, Suffix(n))
    ensures SlugCandidate(base, n) == base
  {
    var max, cut := TENANT_SLUG_MAX_CHARS - |Suffix(n)|, |base| - |Suffix(n)|;
    TrimmedIsSlug(base, max);
    assert base[cut] == base[cut..][0] == '-';
    assert base == base[..cut] + base[cut..];
    if cut > 0 {
      assert base[cut - 1] != '-';
    }
  }
}
