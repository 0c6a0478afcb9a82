/** Slug derivation for a new tenant.

    The base is computed from the contact address: the part before the first
    '@', lower-cased, every run of characters outside [a-z0-9] replaced by a
    single '-', '-' trimmed from both ends, and the result cut to 20 bytes.
    The slug is then the first of `base`, `base-2`, `base-3`, ... that is not
    taken. "Taken" is membership in a finite set of existing slugs. */
module Slug {

  /** Characters kept by the pattern: [a-z0-9]. */
  predicate IsAlnum(ch: char) {
    'a' <= ch <= 'z' || '0' <= ch <= '9'
  }

  predicate IsSlugChar(ch: char) {
    IsAlnum(ch) || ch == '-'
  }

  predicate AllSlugChars(s: string) {
    forall i | 0 <= i < |s| :: IsSlugChar(s[i])
  }

  predicate NoDoubleHyphen(s: string) {
    forall i | 0 <= i < |s| - 1 :: !(s[i] == '-' && s[i + 1] == '-')
  }

  /** The longest base a slug may have, in bytes (one byte per character,
      since a base holds only ASCII). */
  const MaxBaseLength := 20

  // ---------------------------------------------------------------------------
  // The steps of the base computation

  /** The position of the first '@', or the length when there is none. */
  function AtIndex(email: string): (k: nat)
    ensures k <= |email|
    ensures forall i | 0 <= i < k :: email[i] != '@'
    ensures k == |email| || email[k] == '@'
  {
    if email == [] || email[0] == '@' then 0
    else
      var k' := AtIndex(email[1..]);
      assert forall i | 1 <= i < k' + 1 :: email[i] == email[1..][i - 1];
      k' + 1
  }

  /** The specification of AtIndex pins it down: the first '@' is at k. */
  lemma AtIndexIsFirstAt(email: string, k: nat)
    requires k < |email| && email[k] == '@'
    requires forall i | 0 <= i < k :: email[i] != '@'
    ensures AtIndex(email) == k
  {
  }

  /** The first field of splitting the address at '@': everything before the
      first '@', or the whole address when it has none. */
  function LocalPart(email: string): (r: string)
    ensures r <= email
    ensures '@' !in r
    ensures |r| < |email| ==> email[|r|] == '@'
  {
    email[..AtIndex(email)]
  }

  function LowerChar(ch: char): char {
    if 'A' <= ch <= 'Z' then (ch as int + 32) as char else ch
  }

  /** ASCII lower-casing. */
  function Lower(s: string): (r: string)
    ensures |r| == |s|
    ensures forall i | 0 <= i < |s| :: r[i] == LowerChar(s[i])
    ensures forall i | 0 <= i < |r| :: !('A' <= r[i] <= 'Z')
  {
    seq(|s|, i requires 0 <= i < |s| => LowerChar(s[i]))
  }

  /** The length of the leading run of characters outside [a-z0-9]. */
  function RunLength(s: string): (k: nat)
    ensures k <= |s|
    ensures forall i | 0 <= i < k :: !IsAlnum(s[i])
    ensures k == |s| || IsAlnum(s[k])
  {
    if s != [] && !IsAlnum(s[0]) then
      var k' := RunLength(s[1..]);
      assert forall i | 1 <= i < k' + 1 :: s[i] == s[1..][i - 1];
      k' + 1
    else 0
  }

  /** Drops the leading run of characters outside [a-z0-9]. */
  function DropRun(s: string): (r: string)
    ensures |r| <= |s|
    ensures r == [] || IsAlnum(r[0])
  {
    s[RunLength(s)..]
  }

  /** Replaces every maximal run of characters outside [a-z0-9] by one '-'. */
  function Collapse(s: string): (r: string)
    ensures AllSlugChars(r) && NoDoubleHyphen(r)
    ensures r == [] <==> s == []
    ensures s != [] && IsAlnum(s[0]) ==> r[0] == s[0]
    ensures s != [] && !IsAlnum(s[0]) ==> r[0] == '-'
    decreases |s|
  {
    if s == [] then []
    else if IsAlnum(s[0]) then [s[0]] + Collapse(s[1..])
    else "-" + Collapse(DropRun(s))
  }

  /** The number of leading '-'. */
  function LeadingHyphens(s: string): (k: nat)
    ensures k <= |s|
    ensures forall i | 0 <= i < k :: s[i] == '-'
    ensures k == |s| || s[k] != '-'
  {
    if s != [] && s[0] == '-' then
      var k' := LeadingHyphens(s[1..]);
      assert forall i | 1 <= i < k' + 1 :: s[i] == s[1..][i - 1];
      k' + 1
    else 0
  }

  /** The number of trailing '-'. */
  function TrailingHyphens(s: string): (k: nat)
    ensures k <= |s|
    ensures forall i | |s| - k <= i < |s| :: s[i] == '-'
    ensures k == |s| || s[|s| - k - 1] != '-'
  {
    if s != [] && s[|s| - 1] == '-' then
      var k' := TrailingHyphens(s[..|s| - 1]);
      assert forall i | |s| - 1 - k' <= i < |s| - 1 :: s[i] == s[..|s| - 1][i];
      k' + 1
    else 0
  }

  predicate AllHyphens(s: string) {
    forall k | 0 <= k < |s| :: s[k] == '-'
  }

  /** Removes every leading '-': what is left is a suffix of `s`, and only
      '-' was cut. */
  function TrimLeft(s: string): (r: string)
    ensures |r| <= |s| && r == s[|s| - |r|..]
    ensures AllHyphens(s[..|s| - |r|])
    ensures r == [] || r[0] != '-'
  {
    s[LeadingHyphens(s)..]
  }

  /** Removes every trailing '-': what is left is a prefix of `s`, and only
      '-' was cut. */
  function TrimRight(s: string): (r: string)
    ensures r <= s
    ensures AllHyphens(s[|r|..])
    ensures r == [] || r[|r| - 1] != '-'
  {
    s[..|s| - TrailingHyphens(s)]
  }

  /** `r` is a slice of `s` with nothing but '-' outside it. */
  predicate HyphenTrimmed(s: string, r: string) {
    exists i, j | 0 <= i <= j <= |s| ::
      r == s[i..j] && AllHyphens(s[..i]) && AllHyphens(s[j..])
  }

  /** Removes '-' from both ends, and nothing else. */
  function Trim(s: string): (r: string)
    ensures HyphenTrimmed(s, r)
    ensures r == [] || (r[0] != '-' && r[|r| - 1] != '-')
  {
    var l := TrimLeft(s);
    var r := TrimRight(l);
    var i := |s| - |l|;
    assert r == s[i..i + |r|];
    assert s[i + |r|..] == l[|r|..];
    r
  }

  /** Keeps the first 20 characters of a longer string. */
  function Truncate(s: string): (r: string)
    ensures r <= s && |r| <= MaxBaseLength
    ensures |s| <= MaxBaseLength ==> r == s
    ensures |s| > MaxBaseLength ==> |r| == MaxBaseLength
  {
    if |s| > MaxBaseLength then s[..MaxBaseLength] else s
  }

  /** The cleaned local part before truncation: the collapsed lower-cased
      input with only its end hyphens cut. */
  function Normalise(s: string): (r: string)
    ensures HyphenTrimmed(Collapse(Lower(s)), r)
    ensures r == [] || (r[0] != '-' && r[|r| - 1] != '-')
  {
    Trim(Collapse(Lower(s)))
  }

  /** The slug base of a contact address: the cleaned local part, cut to its
      first 20 characters when longer. */
  function SlugBase(email: string): (r: string)
    ensures |r| <= MaxBaseLength
  {
    Truncate(Normalise(LocalPart(email)))
  }

  // ---------------------------------------------------------------------------
  // What the base looks like

  /** A character's own contribution to `Alnums`. */
  function Kept(ch: char): string {
    if IsAlnum(ch) then [ch] else []
  }

  /** The characters of [a-z0-9] in `s`, in order. */
  function Alnums(s: string): (r: string)
    ensures |r| <= |s|
  {
    if s == [] then [] else Kept(s[0]) + Alnums(s[1..])
  }

  lemma {:induction false} AlnumsAppend(a: string, b: string)
    ensures Alnums(a + b) == Alnums(a) + Alnums(b)
  {
    if a == [] {
      assert a + b == b;
    } else {
      var k, x, y := Kept(a[0]), Alnums(a[1..]), Alnums(b);
      calc {
        Alnums(a + b);
      == { assert (a + b)[0] == a[0] && (a + b)[1..] == a[1..] + b; }
        k + Alnums(a[1..] + b);
      == { AlnumsAppend(a[1..], b); }
        k + (x + y);
      ==
        (k + x) + y;
      }
    }
  }

  /** Cutting `s` anywhere splits its [a-z0-9] characters at the same place. */
  lemma AlnumsSplit(s: string, k: nat)
    requires k <= |s|
    ensures Alnums(s) == Alnums(s[..k]) + Alnums(s[k..])
  {
    assert s == s[..k] + s[k..];
    AlnumsAppend(s[..k], s[k..]);
  }

  lemma {:induction false} AlnumsOfNonAlnums(s: string)
    requires forall i | 0 <= i < |s| :: !IsAlnum(s[i])
    ensures Alnums(s) == []
  {
    if s != [] {
      AlnumsOfNonAlnums(s[1..]);
    }
  }

  /** A run of characters outside [a-z0-9] contributes nothing. */
  lemma AlnumsDropRun(s: string)
    ensures Alnums(DropRun(s)) == Alnums(s)
  {
    var k := RunLength(s);
    AlnumsSplit(s, k);
    AlnumsOfNonAlnums(s[..k]);
  }

  lemma {:induction false} AlnumsCollapse(s: string)
    ensures Alnums(Collapse(s)) == Alnums(s)
    decreases |s|
  {
    if s == [] {
    } else if IsAlnum(s[0]) {
      assert ([s[0]] + Collapse(s[1..]))[1..] == Collapse(s[1..]);
      AlnumsCollapse(s[1..]);
    } else {
      assert ("-" + Collapse(DropRun(s)))[1..] == Collapse(DropRun(s));
      AlnumsCollapse(DropRun(s));
      AlnumsDropRun(s);
    }
  }

  lemma AlnumsTrimLeft(s: string)
    ensures Alnums(TrimLeft(s)) == Alnums(s)
  {
    var k := LeadingHyphens(s);
    AlnumsSplit(s, k);
    AlnumsOfNonAlnums(s[..k]);
  }

  lemma AlnumsTrimRight(s: string)
    ensures Alnums(TrimRight(s)) == Alnums(s)
  {
    var m := |s| - TrailingHyphens(s);
    AlnumsSplit(s, m);
    AlnumsOfNonAlnums(s[m..]);
    assert Alnums(s[..m]) + [] == Alnums(s[..m]);
  }

  /** Any slice of a string keeps its character class and its lack of "--". */
  lemma SliceShape(s: string, i: nat, j: nat)
    requires i <= j <= |s|
    requires AllSlugChars(s) && NoDoubleHyphen(s)
    ensures AllSlugChars(s[i..j]) && NoDoubleHyphen(s[i..j])
  {
    var t := s[i..j];
    forall k | 0 <= k < |t| - 1
      ensures !(t[k] == '-' && t[k + 1] == '-')
    {
      assert t[k] == s[i + k] && t[k + 1] == s[i + k + 1];
    }
  }

  /** The cleaned local part keeps exactly the [a-z0-9] characters of the
      lower-cased input, holds nothing else but single hyphens between them,
      and neither starts nor ends with '-'. */
  lemma NormaliseShape(s: string)
    ensures AllSlugChars(Normalise(s)) && NoDoubleHyphen(Normalise(s))
    ensures Normalise(s) == [] || (Normalise(s)[0] != '-' && Normalise(s)[|Normalise(s)| - 1] != '-')
    ensures Alnums(Normalise(s)) == Alnums(Lower(s))
  {
    var c := Collapse(Lower(s));
    var l := TrimLeft(c);
    SliceShape(c, LeadingHyphens(c), |c|);
    var r := TrimRight(l);
    SliceShape(l, 0, |r|);
    assert r == l[0..|r|];
    AlnumsCollapse(Lower(s));
    AlnumsTrimLeft(c);
    AlnumsTrimRight(l);
  }

  /** A non-empty string with no '-' at its ends and only slug characters
      has an [a-z0-9] character. */
  lemma {:induction false} NonEmptyHasAlnum(t: string)
    requires t != [] && t[0] != '-' && AllSlugChars(t)
    ensures Alnums(t) != []
  {
    assert Alnums(t) == [t[0]] + Alnums(t[1..]);
  }

  /** The base contains only [a-z0-9-], is at most 20 characters, never starts
      with '-' and never has two adjacent '-'. */
  lemma SlugBaseShape(email: string)
    ensures AllSlugChars(SlugBase(email))
    ensures |SlugBase(email)| <= MaxBaseLength
    ensures NoDoubleHyphen(SlugBase(email))
    ensures SlugBase(email) == [] || SlugBase(email)[0] != '-'
  {
    var n := Normalise(LocalPart(email));
    NormaliseShape(LocalPart(email));
    SliceShape(n, 0, |SlugBase(email)|);
    assert SlugBase(email) == n[0..|SlugBase(email)|];
  }

  /** The base is a prefix of the cleaned local part (all of it when that
      has at most 20 characters, its first 20 otherwise), keeps a prefix of
      its [a-z0-9] characters, and is empty exactly when the lower-cased
      local part has no [a-z0-9] character at all. */
  lemma SlugBaseContent(email: string)
    ensures SlugBase(email) <= Normalise(LocalPart(email))
    ensures |Normalise(LocalPart(email))| <= MaxBaseLength ==> SlugBase(email) == Normalise(LocalPart(email))
    ensures |Normalise(LocalPart(email))| > MaxBaseLength ==> |SlugBase(email)| == MaxBaseLength
    ensures Alnums(SlugBase(email)) <= Alnums(Lower(LocalPart(email)))
    ensures SlugBase(email) == [] <==> Alnums(Lower(LocalPart(email))) == []
  {
    var n := Normalise(LocalPart(email));
    var b := SlugBase(email);
    NormaliseShape(LocalPart(email));
    AlnumsSplit(n, |b|);
    assert b == n[..|b|];
    if b != [] {
      SlugBaseShape(email);
      NonEmptyHasAlnum(b);
    }
  }

  /** A leading run of [a-z0-9] passes through Collapse unchanged. */
  lemma {:induction false} CollapseAlnumPrefix(a: string, b: string)
    requires forall i | 0 <= i < |a| :: IsAlnum(a[i])
    ensures Collapse(a + b) == a + Collapse(b)
  {
    if a == [] {
      assert a + b == b;
    } else {
      calc {
        Collapse(a + b);
      == { assert (a + b)[0] == a[0] && (a + b)[1..] == a[1..] + b; }
        [a[0]] + Collapse(a[1..] + b);
      == { CollapseAlnumPrefix(a[1..], b); }
        [a[0]] + (a[1..] + Collapse(b));
      == { assert [a[0]] + a[1..] == a; }
        a + Collapse(b);
      }
    }
  }

  /** A maximal run outside [a-z0-9] becomes exactly one '-'. With
      `CollapseAlnumPrefix` and `Collapse([]) == []` this pins `Collapse`
      down on every input. */
  lemma CollapseRun(r: string, b: string)
    requires r != [] && forall i | 0 <= i < |r| :: !IsAlnum(r[i])
    requires b == [] || IsAlnum(b[0])
    ensures Collapse(r + b) == "-" + Collapse(b)
  {
    var s := r + b;
    var k := RunLength(s);
    assert forall i | 0 <= i < |r| :: s[i] == r[i];
    assert b != [] ==> s[|r|] == b[0];
    assert DropRun(s) == b;
  }

  lemma JaneDoeLower()
    ensures Lower("jane.doe") == "jane.doe"
  {
    assert forall i | 0 <= i < 8 :: LowerChar("jane.doe"[i]) == "jane.doe"[i];
  }

  lemma DotDoeCollapse()
    ensures Collapse(".doe") == "-doe"
  {
    assert RunLength(".doe") == 1 by {
      assert ".doe"[1..] == "doe";
    }
    CollapseAlnumPrefix("doe", "");
    assert "doe" + "" == "doe";
  }

  lemma JaneDoeCollapse()
    ensures Collapse("jane.doe") == "jane-doe"
  {
    DotDoeCollapse();
    var a, b := "jane", ".doe";
    assert a + b == "jane.doe";
    assert IsAlnum(a[0]) && IsAlnum(a[1]) && IsAlnum(a[2]) && IsAlnum(a[3]);
    CollapseAlnumPrefix(a, b);
    assert a + "-doe" == "jane-doe";
  }

  lemma JaneDoeTrim()
    ensures Trim("jane-doe") == "jane-doe"
  {
    assert LeadingHyphens("jane-doe") == 0;
    assert TrailingHyphens("jane-doe") == 0;
  }

  /** Any address whose local part is "jane.doe" has base "jane-doe". */
  lemma JaneDoeLocal(email: string)
    requires LocalPart(email) == "jane.doe"
    ensures SlugBase(email) == "jane-doe"
  {
    JaneDoeLower();
    JaneDoeCollapse();
    JaneDoeTrim();
  }

  /** The specification's worked example: "jane.doe@x.com" gives "jane-doe",
      whatever the domain. */
  lemma JaneDoeBase(domain: string)
    ensures SlugBase("jane.doe@" + domain) == "jane-doe"
  {
    var email := "jane.doe@" + domain;
    assert email[..9] == "jane.doe@";
    AtIndexIsFirstAt(email, 8);
    JaneDoeLocal(email);
  }

  /** The base can be empty: a local part with no [a-z0-9] character, such
      as "+", leaves nothing once the hyphens are trimmed. */
  lemma EmptyBase(domain: string)
    ensures SlugBase("+@" + domain) == ""
  {
    var email := "+@" + domain;
    AtIndexIsFirstAt(email, 1);
    assert LocalPart(email) == "+";
    assert Lower("+") == "+";
    assert Collapse("+") == "-" by {
      assert RunLength("+") == 1;
    }
    assert LeadingHyphens("-") == 1;
  }

  predicate AllLowerLetters(a: string) {
    forall i | 0 <= i < |a| :: 'a' <= a[i] <= 'z'
  }

  lemma DotTCollapse()
    ensures Collapse(".t") == "-t"
  {
    assert RunLength(".t") == 1 by {
      assert ".t"[1..] == "t";
    }
    assert DropRun(".t") == "t";
    assert Collapse("t") == "t" by {
      assert "t"[1..] == [];
    }
  }

  lemma NormaliseLettersDotT(a: string)
    requires a != [] && AllLowerLetters(a)
    ensures Normalise(a + ".t") == a + "-t"
  {
    var s := a + ".t";
    assert Lower(s) == s by {
      assert forall i | 0 <= i < |s| :: LowerChar(s[i]) == s[i];
    }
    CollapseAlnumPrefix(a, ".t");
    DotTCollapse();
    var c := a + "-t";
    assert c[0] == a[0] && c[|c| - 1] == 't';
    assert LeadingHyphens(c) == 0;
    assert TrailingHyphens(c) == 0;
  }

  /** The base can end with '-': the cut to 20 characters may fall right
      after a hyphen, as for any 19 letters followed by ".t". */
  lemma BaseEndingInHyphen(a: string, domain: string)
    requires |a| == MaxBaseLength - 1 && AllLowerLetters(a)
    ensures SlugBase(a + ".t@" + domain) == a + "-"
  {
    var email := a + ".t@" + domain;
    assert email[..|a| + 2] == a + ".t" && email[|a| + 2] == '@';
    assert forall i | 0 <= i < |a| + 2 :: email[i] != '@' by {
      assert forall i | 0 <= i < |a| :: email[i] == a[i];
    }
    AtIndexIsFirstAt(email, |a| + 2);
    NormaliseLettersDotT(a);
    assert (a + "-t")[..MaxBaseLength] == a + "-";
  }

  // ---------------------------------------------------------------------------
  // The `%d` suffix

  function DigitChar(d: nat): (c: char)
    requires d < 10
    ensures '0' <= c <= '9'
  {
    ('0' as int + d) as char
  }

  predicate AllDigits(s: string) {
    forall i | 0 <= i < |s| :: '0' <= s[i] <= '9'
  }

  /** Decimal rendering of a natural number, as `%d` prints it. */
  function Decimal(n: nat): (r: string)
    ensures r != [] && AllDigits(r)
    ensures r[0] != '0' || n == 0
  {
    if n < 10 then [DigitChar(n)] else Decimal(n / 10) + [DigitChar(n % 10)]
  }

  /** Reads a string of decimal digits back as a number. */
  function ParseDecimal(s: string): nat
    requires AllDigits(s)
  {
    if s == [] then 0 else ParseDecimal(s[..|s| - 1]) * 10 + (s[|s| - 1] as int - '0' as int)
  }

  /** Printing with `%d` loses nothing: reading the digits back gives `n`. */
  lemma {:induction false} ParseDecimalOfDecimal(n: nat)
    ensures ParseDecimal(Decimal(n)) == n
  {
    if n >= 10 {
      var d := Decimal(n);
      assert d[..|d| - 1] == Decimal(n / 10);
      ParseDecimalOfDecimal(n / 10);
    }
  }

  lemma DecimalInjective(m: nat, n: nat)
    requires Decimal(m) == Decimal(n)
    ensures m == n
  {
    ParseDecimalOfDecimal(m);
    ParseDecimalOfDecimal(n);
  }

  // ---------------------------------------------------------------------------
  // Candidates and the first free one

  /** The n-th candidate: the base itself for n = 1, then `base-n`. */
  function Candidate(base: string, n: nat): (r: string)
    requires n >= 1
    ensures n == 1 ==> r == base
    ensures n >= 2 ==> base <= r && |r| > |base| + 1 && r[|base|] == '-'
  {
    if n == 1 then base else base + "-" + Decimal(n)
  }

  /** Distinct positions give distinct candidates. */
  lemma CandidateInjective(base: string, m: nat, n: nat)
    requires m >= 1 && n >= 1
    requires Candidate(base, m) == Candidate(base, n)
    ensures m == n
  {
    if m >= 2 && n >= 2 {
      var p := |base| + 1;
      assert Decimal(m) == Candidate(base, m)[p..];
      assert Decimal(n) == Candidate(base, n)[p..];
      DecimalInjective(m, n);
    }
  }

  /** All candidates before position n. */
  function CandidatesBelow(base: string, n: nat): (s: set<string>)
    requires n >= 1
    ensures forall j: nat | 1 <= j < n :: Candidate(base, j) in s
    ensures forall x | x in s :: exists j: nat | 1 <= j < n :: x == Candidate(base, j)
  {
    if n == 1 then {} else CandidatesBelow(base, n - 1) + {Candidate(base, n - 1)}
  }

  /** There are exactly n - 1 of them, because candidates are distinct. */
  lemma {:induction false} CandidatesBelowCard(base: string, n: nat)
    requires n >= 1
    ensures |CandidatesBelow(base, n)| == n - 1
  {
    if n > 1 {
      CandidatesBelowCard(base, n - 1);
      if Candidate(base, n - 1) in CandidatesBelow(base, n - 1) {
        var j: nat :| 1 <= j < n - 1 && Candidate(base, n - 1) == Candidate(base, j);
        CandidateInjective(base, j, n - 1);
      }
    }
  }

  lemma SubsetCard<T>(a: set<T>, b: set<T>)
    requires a <= b
    ensures |a| <= |b|
  {
    assert b == a + (b - a);
    assert a * (b - a) == {};
  }

  /** Every candidate before position n is taken. */
  ghost predicate AllTakenBelow(base: string, taken: set<string>, n: nat) {
    forall j: nat | 1 <= j < n :: Candidate(base, j) in taken
  }

  /** `slug` is the first candidate for `base` that is not taken; it is free
      and starts with the base. */
  ghost predicate FirstFree(base: string, taken: set<string>, slug: string): (b: bool)
    ensures b ==> slug !in taken && base <= slug
  {
    exists n: nat | n >= 1 :: slug == Candidate(base, n) && slug !in taken && AllTakenBelow(base, taken, n)
  }

  /** Pigeonhole: if the first n - 1 candidates are all taken, then n - 1 is
      at most the number of taken slugs. */
  lemma TakenPrefixBound(base: string, taken: set<string>, n: nat)
    requires n >= 1 && AllTakenBelow(base, taken, n)
    ensures n <= |taken| + 1
  {
    CandidatesBelowCard(base, n);
    SubsetCard(CandidatesBelow(base, n), taken);
  }

  /** The first free candidate is found within |taken| + 1 attempts. */
  lemma FirstFreeBound(base: string, taken: set<string>, slug: string)
    requires FirstFree(base, taken, slug)
    ensures exists n: nat | 1 <= n <= |taken| + 1 :: slug == Candidate(base, n)
  {
    var n: nat :| n >= 1 && slug == Candidate(base, n) && slug !in taken && AllTakenBelow(base, taken, n);
    TakenPrefixBound(base, taken, n);
  }

  /** The first free candidate is determined by the taken set alone. */
  lemma FirstFreeUnique(base: string, taken: set<string>, s1: string, s2: string)
    requires FirstFree(base, taken, s1) && FirstFree(base, taken, s2)
    ensures s1 == s2
  {
    var n1: nat :| n1 >= 1 && s1 == Candidate(base, n1) && s1 !in taken && AllTakenBelow(base, taken, n1);
    var n2: nat :| n2 >= 1 && s2 == Candidate(base, n2) && s2 !in taken && AllTakenBelow(base, taken, n2);
    if n1 < n2 {
      assert false;
    } else if n2 < n1 {
      assert false;
    }
  }

  /** A free base is used as it is; a taken one gets a suffix of at least 2. */
  lemma FirstFreeOfBase(base: string, taken: set<string>, slug: string)
    requires FirstFree(base, taken, slug)
    ensures base !in taken <==> slug == base
    ensures base in taken ==> exists n: nat | n >= 2 :: slug == base + "-" + Decimal(n)
  {
    var n: nat :| n >= 1 && slug == Candidate(base, n) && slug !in taken && AllTakenBelow(base, taken, n);
    if n >= 2 {
      assert Candidate(base, 1) in taken;
    }
  }

  /** The specification's second worked example: while "jane-doe" is taken, a second
      "jane.doe@..." address gets "jane-doe-2". */
  lemma JaneDoeSecond(domain: string, slug: string)
    requires FirstFree(SlugBase("jane.doe@" + domain), {"jane-doe"}, slug)
    ensures slug == "jane-doe-2"
  {
    JaneDoeBase(domain);
    var base, taken := "jane-doe", {"jane-doe"};
    assert Candidate(base, 2) == "jane-doe-2" by {
      assert Decimal(2) == "2";
    }
    assert AllTakenBelow(base, taken, 2) by {
      assert Candidate(base, 1) == base;
    }
    assert FirstFree(base, taken, "jane-doe-2");
    FirstFreeUnique(base, taken, slug, "jane-doe-2");
  }

  /** Tries `base`, `base-2`, `base-3`, ... against the taken set and returns
      the first that is free. */
  method UniqueSlug(taken: set<string>, email: string) returns (slug: string)
    ensures slug !in taken
    ensures FirstFree(SlugBase(email), taken, slug)
  {
    var base := SlugBase(email);
    slug := base;
    var i := 2;
    while slug in taken
      invariant i >= 2
      invariant slug == Candidate(base, i - 1)
      invariant AllTakenBelow(base, taken, i - 1)
      decreases |taken| + 2 - i
    {
      TakenPrefixBound(base, taken, i);
      slug := base + "-" + Decimal(i);
      i := i + 1;
    }
  }
}
