/** Workspace slugs: slugify and the search for a free one. */
module Slug {
  import opened Text

  predicate IsSlugChar(c: char) { 'a' <= c <= 'z' || '0' <= c <= '9' }

  function DropOthers(s: string): (r: string)
    ensures |r| <= |s|
  {
    if s != "" && !IsSlugChar(s[0]) then DropOthers(s[1..]) else s
  }

  /** re.sub("[^a-z0-9]+", "-", s) */
  function Collapse(s: string): string
    decreases |s|
  {
    if s == "" then ""
    else if IsSlugChar(s[0]) then [s[0]] + Collapse(s[1..])
    else "-" + Collapse(DropOthers(s[1..]))
  }

  /** strip("-") */
  function StripHyphens(s: string): string {
    if s != "" && s[0] == '-' then StripHyphens(s[1..])
    else if s != "" && s[|s| - 1] == '-' then StripHyphens(s[..|s| - 1])
    else s
  }

  /** slugify; `token` is the random fallback for text without any letter or digit. */
  function Slugify(value: string, token: string): string {
    var slug := StripHyphens(Collapse(Lower(value)));
    if slug != "" then slug else token
  }

  // ---- Shape ---------------------------------------------------------------------

  ghost predicate NoDoubleHyphen(s: string) {
    forall i :: 0 <= i < |s| - 1 ==> !(s[i] == '-' && s[i + 1] == '-')
  }

  ghost predicate SlugChars(s: string) {
    forall i :: 0 <= i < |s| ==> IsSlugChar(s[i]) || s[i] == '-'
  }

  /** Only [a-z0-9-], with no leading, trailing or doubled hyphen. */
  ghost predicate Shaped(s: string) {
    s != "" && SlugChars(s) && NoDoubleHyphen(s) && s[0] != '-' && s[|s| - 1] != '-'
  }

  predicate IsToken(s: string) { |s| == 8 && forall i :: 0 <= i < |s| ==> IsSlugChar(s[i]) }

  lemma {:induction false} CollapseShape(s: string)
    ensures SlugChars(Collapse(s)) && NoDoubleHyphen(Collapse(s))
    ensures Collapse(s) != "" && Collapse(s)[0] == '-' ==> s != "" && !IsSlugChar(s[0])
    decreases |s|
  {
    if s != "" {
      var rest := if IsSlugChar(s[0]) then s[1..] else DropOthers(s[1..]);
      DropOthersStops(s[1..]);
      CollapseShape(rest);
      assert Collapse(s)[1..] == Collapse(rest);
      forall i | 0 <= i < |Collapse(s)| - 1 ensures !(Collapse(s)[i] == '-' && Collapse(s)[i + 1] == '-') {
        if i > 0 { assert Collapse(s)[i] == Collapse(rest)[i - 1] && Collapse(s)[i + 1] == Collapse(rest)[i]; }
      }
    }
  }

  lemma {:induction false} DropOthersStops(s: string)
    ensures DropOthers(s) != "" ==> IsSlugChar(DropOthers(s)[0])
  {
    if s != "" && !IsSlugChar(s[0]) { DropOthersStops(s[1..]); }
  }

  lemma {:induction false} StripHyphensShape(s: string)
    requires SlugChars(s) && NoDoubleHyphen(s)
    ensures StripHyphens(s) != "" ==> Shaped(StripHyphens(s))
    decreases |s|
  {
    if s != "" && s[0] == '-' { StripHyphensShape(s[1..]); }
    else if s != "" && s[|s| - 1] == '-' { StripHyphensShape(s[..|s| - 1]); }
  }

  lemma SlugifyIsShaped(value: string, token: string)
    requires IsToken(token)
    ensures Shaped(Slugify(value, token))
  {
    CollapseShape(Lower(value));
    StripHyphensShape(Collapse(Lower(value)));
  }

  lemma {:induction false} CollapseOfShaped(s: string)
    requires SlugChars(s) && NoDoubleHyphen(s) && (s != "" ==> s[|s| - 1] != '-')
    ensures Collapse(s) == s
  {
    if s != "" {
      assert s == [s[0]] + s[1..];
      if s[0] == '-' { assert s[1..] != "" && s[1] != '-' && IsSlugChar(s[1]); }
      CollapseOfShaped(s[1..]);
    }
  }

  lemma {:induction false} LowerOfSlugChars(s: string)
    requires SlugChars(s)
    ensures Lower(s) == s
  {
    if s != "" { LowerOfSlugChars(s[1..]); }
  }

  /** Slugifying a slug changes nothing. */
  lemma SlugifyIsIdempotent(value: string, token: string, other: string)
    requires IsToken(token)
    ensures Slugify(Slugify(value, token), other) == Slugify(value, token)
  {
    var s := Slugify(value, token);
    SlugifyIsShaped(value, token);
    LowerOfSlugChars(s);
    CollapseOfShaped(s);
  }

  // ---- Meaning: a slug keeps exactly the words of the text --------------------------

  function WordLength(s: string): (n: nat)
    ensures n <= |s|
  {
    if s != "" && IsSlugChar(s[0]) then 1 + WordLength(s[1..]) else 0
  }

  /** The maximal runs of letters and digits, in order. */
  function Words(s: string): seq<string>
    decreases |s|
  {
    if s == "" then []
    else if !IsSlugChar(s[0]) then Words(s[1..])
    else [s[..WordLength(s)]] + Words(s[WordLength(s)..])
  }

  lemma {:induction false} WordsSkipOthers(s: string)
    ensures Words(DropOthers(s)) == Words(s)
  {
    if s != "" && !IsSlugChar(s[0]) { WordsSkipOthers(s[1..]); }
  }

  lemma {:induction false} CollapseRun(s: string)
    ensures Collapse(s) == s[..WordLength(s)] + Collapse(s[WordLength(s)..])
    ensures WordLength(Collapse(s)) == WordLength(s)
  {
    if s != "" && IsSlugChar(s[0]) {
      CollapseRun(s[1..]);
      assert Collapse(s) == [s[0]] + Collapse(s[1..]);
      assert WordLength(s) == 1 + WordLength(s[1..]);
      assert Collapse(s)[1..] == Collapse(s[1..]);
      assert WordLength(Collapse(s)) == 1 + WordLength(Collapse(s)[1..]);
      hide Collapse, WordLength;
      assert s[1..][WordLength(s[1..])..] == s[WordLength(s)..];
      assert s[..WordLength(s)] == [s[0]] + s[1..][..WordLength(s[1..])];
    } else {
      assert s[WordLength(s)..] == s;
    }
  }

  lemma {:induction false} CollapseKeepsWords(s: string)
    ensures Words(Collapse(s)) == Words(s)
    decreases |s|
  {
    if s == "" {
    } else if !IsSlugChar(s[0]) {
      WordsSkipOthers(s[1..]);
      CollapseKeepsWords(DropOthers(s[1..]));
      assert Collapse(s)[1..] == Collapse(DropOthers(s[1..]));
    } else {
      var n := WordLength(s);
      CollapseRun(s);
      CollapseKeepsWords(s[n..]);
      assert Collapse(s)[..n] == s[..n] && Collapse(s)[n..] == Collapse(s[n..]);
    }
  }

  lemma {:induction false} TrailingHyphen(s: string)
    ensures Words(s + "-") == Words(s)
    decreases |s|
  {
    if s == "" {
      assert s + "-" == "-" && ("-")[1..] == "";
    } else if !IsSlugChar(s[0]) {
      assert (s + "-")[1..] == s[1..] + "-";
      TrailingHyphen(s[1..]);
    } else {
      RunBeforeHyphen(s);
      var n := WordLength(s);
      assert (s + "-")[..n] == s[..n] && (s + "-")[n..] == s[n..] + "-";
      TrailingHyphen(s[n..]);
    }
  }

  lemma {:induction false} RunBeforeHyphen(s: string)
    ensures WordLength(s + "-") == WordLength(s)
  {
    if s == "" {
      assert s + "-" == "-";
    } else {
      assert (s + "-")[1..] == s[1..] + "-";
      RunBeforeHyphen(s[1..]);
    }
  }

  lemma {:induction false} StripKeepsWords(s: string)
    ensures Words(StripHyphens(s)) == Words(s)
    decreases |s|
  {
    if s != "" && s[0] == '-' { StripKeepsWords(s[1..]); }
    else if s != "" && s[|s| - 1] == '-' {
      StripKeepsWords(s[..|s| - 1]);
      TrailingHyphen(s[..|s| - 1]);
      assert s == s[..|s| - 1] + "-";
    }
  }

  /** The slug has exactly the words of the text; a text without any gets the fallback. */
  lemma SlugKeepsWords(value: string, token: string)
    ensures
      var words := Words(Lower(value));
      if words == [] then Slugify(value, token) == token else Words(Slugify(value, token)) == words
  {
    CollapseKeepsWords(Lower(value));
    StripKeepsWords(Collapse(Lower(value)));
    CollapseShape(Lower(value));
    StripHyphensShape(Collapse(Lower(value)));
    hide Collapse, StripHyphens, Lower;
  }

  /** The ASCII letters and digits that make words. */
  lemma SlugLetters(c: char)
    ensures IsSlugChar(c) <==> 97 <= c as int <= 122 || 48 <= c as int <= 57
  {
  }

  // ---- unique_slug -----------------------------------------------------------------

  /** What secrets.token_hex(4) yields on each call. */
  type Fallbacks = f: nat -> string | forall i :: IsToken(f(i)) witness (i: nat) => "00000000"

  /** The n-th slug tried; every call of slugify draws its own fallback token. */
  function Candidate(base: string, tokens: Fallbacks, n: nat): string
    requires n >= 1
  {
    if n == 1 then Slugify(base, tokens(1)) else Slugify(base, tokens(n)) + "-" + Decimal(n)
  }

  /** The first candidate is the slug itself, the n-th ends in a hyphen and the number n. */
  lemma CandidateMeaning(base: string, tokens: Fallbacks, n: nat)
    requires n >= 1
    ensures
      var slug, candidate := Slugify(base, tokens(n)), Candidate(base, tokens, n);
      if n == 1 then candidate == slug
      else
        exists digits :: candidate == slug + "-" + digits && Number(digits) == n
                         && (forall c :: c in digits ==> '0' <= c <= '9') && digits != "" && digits[0] != '0'
  {
    DecimalShape(n);
    NumberOfDecimal(n);
    hide Decimal;
  }

  lemma CandidatesDiffer(base: string, tokens: Fallbacks, m: nat, n: nat)
    requires 1 <= m < n
    ensures Candidate(base, tokens, m) != Candidate(base, tokens, n)
  {
    var a, b := Slugify(base, tokens(m)), Slugify(base, tokens(n));
    assert |a| == |b|;
    if m > 1 {
      DecimalIsInjective(m, n);
      var x, y := Candidate(base, tokens, m), Candidate(base, tokens, n);
      assert x[|a| + 1..] == Decimal(m) && y[|a| + 1..] == Decimal(n);
    }
  }

  lemma CandidateIsShaped(base: string, tokens: Fallbacks, n: nat)
    requires n >= 1
    ensures Shaped(Candidate(base, tokens, n))
  {
    SlugifyIsShaped(base, tokens(n));
    hide Slugify, Decimal;
    if n > 1 {
      DecimalShape(n);
      NumberedShape(Slugify(base, tokens(n)), Decimal(n));
    }
  }

  lemma NumberedShape(s: string, d: string)
    requires Shaped(s) && d != "" && forall c :: c in d ==> IsDigit(c)
    ensures Shaped(s + "-" + d)
  {
    assert forall i :: 0 <= i < |d| ==> d[i] in d;
    assert forall i :: 0 <= i < |d| ==> (s + "-" + d)[|s| + 1 + i] == d[i];
  }

  /** The first n - 1 candidates. */
  function Tried(base: string, tokens: Fallbacks, n: nat): set<string>
    requires n >= 1
  {
    if n == 1 then {} else Tried(base, tokens, n - 1) + {Candidate(base, tokens, n - 1)}
  }

  lemma {:induction false} TriedAreDistinct(base: string, tokens: Fallbacks, n: nat, taken: set<string>)
    requires n >= 1
    requires forall i :: 1 <= i < n ==> Candidate(base, tokens, i) in taken
    ensures |Tried(base, tokens, n)| == n - 1 && Tried(base, tokens, n) <= taken
    ensures forall m :: m >= n ==> Candidate(base, tokens, m) !in Tried(base, tokens, n)
  {
    if n > 1 {
      TriedAreDistinct(base, tokens, n - 1, taken);
      hide Candidate;
      forall m | m >= n ensures Candidate(base, tokens, m) != Candidate(base, tokens, n - 1) {
        CandidatesDiffer(base, tokens, n - 1, m);
      }
    }
  }

  lemma ProbesAreBounded(base: string, tokens: Fallbacks, n: nat, taken: set<string>)
    requires n >= 1
    requires forall i :: 1 <= i < n ==> Candidate(base, tokens, i) in taken
    ensures n <= |taken| + 1
  {
    TriedAreDistinct(base, tokens, n, taken);
    assert taken == Tried(base, tokens, n) + (taken - Tried(base, tokens, n));
  }

  /** The first candidate from the n-th on that is free. */
  function FirstFree(base: string, tokens: Fallbacks, taken: set<string>, n: nat): (slug: string)
    requires n >= 1 && forall i :: 1 <= i < n ==> Candidate(base, tokens, i) in taken
    ensures slug !in taken
    decreases |taken| + 1 - n
  {
    if Candidate(base, tokens, n) !in taken then Candidate(base, tokens, n)
    else
      ProbesAreBounded(base, tokens, n + 1, taken);
      FirstFree(base, tokens, taken, n + 1)
  }

  lemma {:induction false} FirstFreeFrom(base: string, tokens: Fallbacks, taken: set<string>, k: nat, n: nat)
    requires 1 <= k <= n && forall i :: 1 <= i < n ==> Candidate(base, tokens, i) in taken
    ensures FirstFree(base, tokens, taken, k) == FirstFree(base, tokens, taken, n)
    decreases n - k
  {
    hide Candidate;
    if k < n { FirstFreeFrom(base, tokens, taken, k + 1, n); }
  }

  /** Terminates whatever is taken: with at most |taken| + 1 probes it returns
      the first free candidate. */
  method UniqueSlug(base: string, tokens: Fallbacks, taken: set<string>) returns (candidate: string, probes: nat)
    ensures 1 <= probes <= |taken| + 1
    ensures candidate == Candidate(base, tokens, probes) && candidate !in taken && Shaped(candidate)
    ensures forall i :: 1 <= i < probes ==> Candidate(base, tokens, i) in taken
    ensures candidate == FirstFree(base, tokens, taken, 1)
  {
    candidate := Slugify(base, tokens(1));
    probes := 1;
    ProbesAreBounded(base, tokens, 1, taken);
    while candidate in taken
      invariant 1 <= probes <= |taken| + 1 && candidate == Candidate(base, tokens, probes)
      invariant forall i :: 1 <= i < probes ==> Candidate(base, tokens, i) in taken
      decreases |taken| + 1 - probes
    {
      probes := probes + 1;
      candidate := Slugify(base, tokens(probes)) + "-" + Decimal(probes);
      ProbesAreBounded(base, tokens, probes, taken);
    }
    CandidateIsShaped(base, tokens, probes);
    FirstFreeFrom(base, tokens, taken, 1, probes);
  }
}
