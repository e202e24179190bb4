/**
 DOI normalisation (`normalize_doi` in method/build_meta_table.py): lower-case,
 strip surrounding whitespace, delete every `https://doi.org/`, then every
 `http://doi.org/`, then every `doi:`, and map an empty result to `None`.
 */
module Doi {
  import opened Options

  predicate IsUpper(c: char) { 'A' <= c <= 'Z' }

  /** No upper-case letter occurs in `s`. */
  predicate NoUpper(s: string) { forall c | c in s :: !IsUpper(c) }

  /** The characters Python's `str.strip()` removes (those for which `str.isspace()` holds). */
  predicate IsSpace(c: char)
  {
    var n := c as int;
    || 9 <= n <= 13 || 28 <= n <= 32 || n == 0x85 || n == 0xA0 || n == 0x1680
    || 0x2000 <= n <= 0x200A || n == 0x2028 || n == 0x2029 || n == 0x202F
    || n == 0x205F || n == 0x3000
  }

  predicate AllSpace(s: string) { forall c | c in s :: IsSpace(c) }

  function LowerChar(c: char): (r: char)
    ensures !IsUpper(r)
    ensures IsSpace(c) ==> r == c
  {
    if IsUpper(c) then (c as int - 'A' as int + 'a' as int) as char else c
  }

  /** `str.lower()` on the ASCII letters. */
  function Lower(s: string): (r: string)
    ensures |r| == |s| && NoUpper(r)
  {
    seq(|s|, i requires 0 <= i < |s| => LowerChar(s[i]))
  }

  /** Drops leading whitespace: the result is the suffix of `s` that starts at its first non-space. */
  function TrimStart(s: string): (r: string)
    ensures |r| <= |s| && r == s[|s| - |r|..]
    ensures r == [] || !IsSpace(r[0])
  {
    if s != [] && IsSpace(s[0]) then TrimStart(s[1..]) else s
  }

  /** Drops trailing whitespace: the result is the prefix of `s` that ends at its last non-space. */
  function TrimEnd(s: string): (r: string)
    ensures |r| <= |s| && r == s[..|r|]
    ensures r == [] || !IsSpace(r[|r| - 1])
  {
    if s != [] && IsSpace(s[|s| - 1]) then TrimEnd(s[..|s| - 1]) else s
  }

  /**
   `str.strip()`: a stretch of `s` that neither starts nor ends with
   whitespace.
   */
  function Strip(s: string): (r: string)
    ensures |r| <= |s|
    ensures r == [] || (!IsSpace(r[0]) && !IsSpace(r[|r| - 1]))
    ensures forall c | c in r :: c in s
  {
    var t := TrimStart(s);
    assert forall c | c in t :: c in s;
    TrimEnd(t)
  }

  /** Everything `TrimStart` drops is whitespace. */
  lemma {:induction false} TrimStartDropsSpace(s: string)
    ensures AllSpace(s[..|s| - |TrimStart(s)|])
  {
    if s != [] && IsSpace(s[0]) {
      TrimStartDropsSpace(s[1..]);
      var k := |s| - |TrimStart(s)|;
      assert s[..k] == [s[0]] + s[1..][..k - 1];
    }
  }

  /** Deleting occurrences of `pat` only removes characters. */
  lemma {:induction false} RemoveAllKeepsChars(s: string, pat: string)
    requires pat != []
    ensures forall c | c in RemoveAll(s, pat) :: c in s
    decreases |s|
  {
    if |s| < |pat| {
    } else if s[..|pat|] == pat {
      RemoveAllKeepsChars(s[|pat|..], pat);
    } else {
      RemoveAllKeepsChars(s[1..], pat);
    }
  }

  /**
   `s.replace(pat, "")`: scans left to right and deletes each non-overlapping
   occurrence of `pat`. Deletion only removes characters.
   */
  function RemoveAll(s: string, pat: string): (r: string)
    requires pat != []
    ensures |r| <= |s|
    decreases |s|
  {
    if |s| < |pat| then s
    else if s[..|pat|] == pat then RemoveAll(s[|pat|..], pat)
    else [s[0]] + RemoveAll(s[1..], pat)
  }

  const HttpsResolver: string := "https://doi.org/"
  const HttpResolver: string := "http://doi.org/"
  const DoiScheme: string := "doi:"

  /**
   The string `normalize_doi` builds before its final emptiness test: the
   three deletions run in this order on the stripped lower-case input, so
   the result is no longer than the input and has no upper-case letter.
   */
  function Cleaned(s: string): (r: string)
    ensures |r| <= |s|
    ensures NoUpper(r)
  {
    var x := Strip(Lower(s));
    var a := RemoveAll(x, HttpsResolver);
    var b := RemoveAll(a, HttpResolver);
    RemoveAllKeepsChars(x, HttpsResolver);
    RemoveAllKeepsChars(a, HttpResolver);
    RemoveAllKeepsChars(b, DoiScheme);
    RemoveAll(b, DoiScheme)
  }

  /**
   `normalize_doi`: a missing DOI and one that cleans to the empty string give
   `None`; any other result is a non-empty string without upper-case letters.
   */
  function NormalizeDoi(doi: Cell): (r: Cell)
    ensures doi == None ==> r == None
    ensures r != Some("")
    ensures r.Some? ==> NoUpper(r.value)
  {
    match doi
    case None => None
    case Some(s) =>
      var x := Cleaned(s);
      if x == [] then None else Some(x)
  }

  lemma {:induction false} TrimStartSkipsSpace(w: string, s: string)
    requires AllSpace(w)
    ensures TrimStart(w + s) == TrimStart(s)
  {
    if w != [] {
      assert w[0] in w;
      assert (w + s)[0] == w[0] && IsSpace(w[0]);
      assert (w + s)[1..] == w[1..] + s;
      assert TrimStart(w + s) == TrimStart(w[1..] + s);
      assert forall c | c in w[1..] :: c in w;
      TrimStartSkipsSpace(w[1..], s);
    } else {
      assert w + s == s;
    }
  }

  lemma {:induction false} TrimEndSkipsSpace(s: string, w: string)
    requires AllSpace(w)
    ensures TrimEnd(s + w) == TrimEnd(s)
  {
    if w != [] {
      var n := |s + w|;
      assert w[|w| - 1] in w;
      assert (s + w)[n - 1] == w[|w| - 1] && IsSpace(w[|w| - 1]);
      assert (s + w)[..n - 1] == s + w[..|w| - 1];
      assert TrimEnd(s + w) == TrimEnd(s + w[..|w| - 1]);
      assert forall c | c in w[..|w| - 1] :: c in w;
      TrimEndSkipsSpace(s, w[..|w| - 1]);
    } else {
      assert s + w == s;
    }
  }

  /** Trailing whitespace does not survive `Strip`. */
  lemma StripSkipsTrailingSpace(s: string, w: string)
    requires AllSpace(w)
    ensures Strip(s + w) == Strip(s)
  {
    var t := TrimStart(s);
    if t == [] {
      TrimStartDropsSpace(s);
      assert s[..|s|] == s;
      assert AllSpace(s + w);
      TrimStartSkipsSpace(s + w, []);
      assert s + w + [] == s + w;
      TrimStartSkipsSpace(s, []);
      assert s + [] == s;
    } else {
      var k := |s| - |t|;
      TrimStartDropsSpace(s);
      assert s == s[..k] + t;
      assert s + w == s[..k] + (t + w);
      TrimStartSkipsSpace(s[..k], t + w);
      assert TrimStart(t + w) == t + w;
      TrimEndSkipsSpace(t, w);
    }
  }

  lemma LowerOfConcat(a: string, b: string)
    ensures Lower(a + b) == Lower(a) + Lower(b)
  {
  }

  lemma LowerKeepsSpace(w: string)
    requires AllSpace(w)
    ensures Lower(w) == w
  {
  }

  /**
   `normalize_doi` depends only on `doi.lower().strip()`: changing the case of
   letters or padding with whitespace on either side changes nothing.
   */
  lemma {:induction false} NormalizeIgnoresCaseAndPadding(s: string, t: string, before: string, after: string)
    requires Lower(s) == Lower(t)
    requires AllSpace(before) && AllSpace(after)
    ensures NormalizeDoi(Some(before + s + after)) == NormalizeDoi(Some(t))
  {
    LowerOfConcat(before + s, after);
    LowerOfConcat(before, s);
    LowerKeepsSpace(before);
    LowerKeepsSpace(after);
    assert Lower(before + s + after) == before + (Lower(s) + after);
    TrimStartSkipsSpace(before, Lower(s) + after);
    assert Strip(Lower(before + s + after)) == Strip(Lower(s) + after);
    StripSkipsTrailingSpace(Lower(s), after);
  }

  /** Whitespace-only input, including the empty string, has no DOI. */
  lemma {:induction false} NormalizeWhitespaceIsNone(s: string)
    requires AllSpace(s)
    ensures NormalizeDoi(Some(s)) == None
  {
    LowerKeepsSpace(s);
    TrimStartSkipsSpace(s, []);
    assert s + [] == s;
    assert TrimStart(Lower(s)) == [];
    assert Strip(Lower(s)) == [];
    assert Cleaned(s) == [];
  }

  lemma StripUnpadded(s: string)
    requires s != [] && !IsSpace(s[0]) && !IsSpace(s[|s| - 1])
    ensures Strip(s) == s
  {
  }

  lemma RemoveAllLeading(pat: string, t: string)
    requires pat != []
    ensures RemoveAll(pat + t, pat) == RemoveAll(t, pat)
  {
    assert (pat + t)[..|pat|] == pat;
    assert (pat + t)[|pat|..] == t;
  }

  /** A string in which `pat` cannot even start is left as it is. */
  lemma {:induction false} RemoveAllWithoutLead(s: string, pat: string)
    requires pat != [] && pat[0] !in s
    ensures RemoveAll(s, pat) == s
  {
    if |s| >= |pat| {
      assert s[..|pat|][0] == s[0];
      assert s == [s[0]] + s[1..];
      RemoveAllWithoutLead(s[1..], pat);
    }
  }

  /** `pat` occurs in `s` starting at position `i`. */
  predicate OccursAt(s: string, pat: string, i: int)
  {
    0 <= i && i + |pat| <= |s| && s[i..i + |pat|] == pat
  }

  predicate Occurs(s: string, pat: string)
  {
    exists i | 0 <= i <= |s| :: OccursAt(s, pat, i)
  }

  /** An occurrence in `s[1..]` is an occurrence in `s`, one position later. */
  lemma OccursInTail(s: string, pat: string, i: int)
    requires s != [] && OccursAt(s[1..], pat, i)
    ensures OccursAt(s, pat, i + 1)
  {
    assert s[1..][i..i + |pat|] == s[i + 1..i + 1 + |pat|];
  }

  /** A string in which `pat` does not occur is left as it is by `replace`. */
  lemma {:induction false} RemoveAllNoOccurrence(s: string, pat: string)
    requires pat != [] && !Occurs(s, pat)
    ensures RemoveAll(s, pat) == s
    decreases |s|
  {
    if |s| >= |pat| {
      assert !OccursAt(s, pat, 0);
      RemoveAllKeepsFirst(s, pat);
      forall i | OccursAt(s[1..], pat, i)
        ensures OccursAt(s, pat, i + 1)
      {
        OccursInTail(s, pat, i);
      }
      RemoveAllNoOccurrence(s[1..], pat);
      assert s == [s[0]] + s[1..];
    }
  }

  /** Where no occurrence starts at the front, `replace` keeps the first character and scans on. */
  lemma RemoveAllKeepsFirst(s: string, pat: string)
    requires pat != [] && |s| >= |pat| && !OccursAt(s, pat, 0)
    ensures RemoveAll(s, pat) == [s[0]] + RemoveAll(s[1..], pat)
  {
    assert s[0..0 + |pat|] == s[..|pat|];
  }

  /** No occurrence inside `a` means none inside `a[1..]` once the first character is gone. */
  lemma NoOccurrenceInTail(a: string, pat: string, b: string)
    requires a != [] && pat != []
    requires forall i | 0 <= i < |a| :: !OccursAt(a + pat + b, pat, i)
    ensures (a + pat + b)[1..] == a[1..] + pat + b
    ensures forall i | 0 <= i < |a[1..]| :: !OccursAt(a[1..] + pat + b, pat, i)
  {
    var s := a + pat + b;
    assert s[1..] == a[1..] + pat + b;
    forall i | 0 <= i < |a[1..]| && OccursAt(s[1..], pat, i)
      ensures OccursAt(s, pat, i + 1)
    {
      OccursInTail(s, pat, i);
    }
  }

  /**
   `replace` deletes the leftmost occurrence: when `s` is `a + pat + b` and no
   occurrence of `pat` starts inside `a`, `a` is kept, this `pat` is deleted
   and the scan goes on in `b`.
   */
  lemma {:induction false} RemoveAllFirstOccurrence(a: string, pat: string, b: string)
    requires pat != []
    requires forall i | 0 <= i < |a| :: !OccursAt(a + pat + b, pat, i)
    ensures RemoveAll(a + pat + b, pat) == a + RemoveAll(b, pat)
    decreases |a|
  {
    if a == [] {
      assert a + pat + b == pat + b;
      assert a + RemoveAll(b, pat) == RemoveAll(b, pat);
      RemoveAllLeading(pat, b);
    } else {
      RemoveAllKeepsFirst(a + pat + b, pat);
      NoOccurrenceInTail(a, pat, b);
      RemoveAllFirstOccurrence(a[1..], pat, b);
      assert a == [a[0]] + a[1..];
    }
  }

  /** `pat` cannot occur where its first character never stands early enough. */
  lemma NoLeadNoOccurrence(t: string, pat: string)
    requires pat != []
    requires forall i | 0 <= i && i + |pat| <= |t| :: t[i] != pat[0]
    ensures !Occurs(t, pat)
  {
    forall i | OccursAt(t, pat, i)
      ensures t[i] == pat[0]
    {
      assert t[i..i + |pat|][0] == t[i];
    }
  }

  lemma LowerOfLower(s: string)
    requires NoUpper(s)
    ensures Lower(s) == s
  {
  }

  /** The text after a prefix of a lower-case string is lower-case too. */
  lemma NoUpperSuffix(q: string, t: string)
    requires NoUpper(q + t)
    ensures NoUpper(t)
  {
    assert forall i | 0 <= i < |t| :: t[i] == (q + t)[|q| + i];
  }

  /** Trailing whitespace is trimmed inside `t` when `q` ends with a non-space. */
  lemma {:induction false} TrimEndAfterPrefix(q: string, t: string)
    requires q != [] && !IsSpace(q[|q| - 1])
    ensures TrimEnd(q + t) == q + TrimEnd(t)
    decreases |t|
  {
    if t == [] {
      assert q + t == q;
      assert TrimEnd(q) == q;
    } else if IsSpace(t[|t| - 1]) {
      assert (q + t)[..|q + t| - 1] == q + t[..|t| - 1];
      TrimEndAfterPrefix(q, t[..|t| - 1]);
    } else {
      assert (q + t)[|q + t| - 1] == t[|t| - 1];
    }
  }

  /** Stripping a string that opens with the unpadded prefix `q` strips only what follows it. */
  lemma StripAfterPrefix(q: string, t: string)
    requires q != [] && !IsSpace(q[0]) && !IsSpace(q[|q| - 1])
    requires t == [] || !IsSpace(t[0])
    ensures Strip(q + t) == q + Strip(t)
  {
    assert (q + t)[0] == q[0];
    assert TrimStart(q + t) == q + t;
    assert TrimStart(t) == t;
    TrimEndAfterPrefix(q, t);
  }

  /** A prefix in which `pat` cannot start passes through the deletion of `pat` unchanged. */
  lemma {:induction false} RemoveAllAfterPrefix(q: string, x: string, pat: string)
    requires pat != [] && pat[0] !in q
    ensures RemoveAll(q + x, pat) == q + RemoveAll(x, pat)
    decreases |q|
  {
    if q == [] {
      assert q + x == x;
    } else {
      var s := q + x;
      var rest := q[1..];
      assert q[0] in q;
      assert pat[0] !in rest by {
        assert forall c | c in rest :: c in q;
      }
      RemoveAllAfterPrefix(rest, x, pat);
      if |s| >= |pat| {
        assert !OccursAt(s, pat, 0) by {
          assert s[0..0 + |pat|][0] == q[0];
        }
        RemoveAllKeepsFirst(s, pat);
        assert s[1..] == rest + x;
      } else {
        assert RemoveAll(x, pat) == x;
      }
      assert q == [q[0]] + rest;
    }
  }

  lemma SchemeHasNoResolverLead()
    ensures HttpsResolver[0] !in DoiScheme && HttpResolver[0] !in DoiScheme
    ensures DoiScheme != [] && !IsSpace(DoiScheme[0]) && !IsSpace(DoiScheme[|DoiScheme| - 1])
  {
    assert DoiScheme == ['d', 'o', 'i', ':'];
  }

  lemma ResolverIsUnpadded(url: string)
    requires url == HttpsResolver || url == HttpResolver
    ensures url != [] && !IsSpace(url[0]) && !IsSpace(url[|url| - 1])
  {
  }

  /** Normalisation sees only the lower-cased input. */
  lemma CleanedOfLower(s: string)
    ensures Cleaned(s) == Cleaned(Lower(s))
  {
    LowerOfLower(Lower(s));
  }

  /** The text a lower-case string brings to the deletions once a prefix `q` is stripped with it. */
  lemma StrippedAfterPrefix(q: string, t: string)
    requires q != [] && !IsSpace(q[0]) && !IsSpace(q[|q| - 1])
    requires NoUpper(q + t)
    requires t == [] || !IsSpace(t[0])
    ensures NoUpper(t) && Lower(t) == t
    ensures Strip(Lower(q + t)) == q + Strip(Lower(t))
  {
    NoUpperSuffix(q, t);
    LowerOfLower(t);
    LowerOfLower(q + t);
    StripAfterPrefix(q, t);
  }

  /** The two resolver deletions pass over a leading `doi:`. */
  lemma ResolversPassScheme(t: string)
    requires NoUpper(DoiScheme + t)
    requires t == [] || !IsSpace(t[0])
    ensures Cleaned(DoiScheme + t)
         == RemoveAll(DoiScheme + RemoveAll(RemoveAll(Strip(Lower(t)), HttpsResolver), HttpResolver), DoiScheme)
  {
    var x := Strip(Lower(t));
    var a := RemoveAll(x, HttpsResolver);
    assert Cleaned(DoiScheme + t) == RemoveAll(RemoveAll(RemoveAll(DoiScheme + x, HttpsResolver), HttpResolver), DoiScheme) by {
      SchemeHasNoResolverLead();
      StrippedAfterPrefix(DoiScheme, t);
    }
    assert RemoveAll(DoiScheme + x, HttpsResolver) == DoiScheme + a by {
      SchemeHasNoResolverLead();
      RemoveAllAfterPrefix(DoiScheme, x, HttpsResolver);
    }
    SchemeHasNoResolverLead();
    RemoveAllAfterPrefix(DoiScheme, a, HttpResolver);
  }

  lemma CleanedDropsScheme(t: string)
    requires NoUpper(DoiScheme + t)
    requires t == [] || !IsSpace(t[0])
    ensures Cleaned(DoiScheme + t) == Cleaned(t)
  {
    ResolversPassScheme(t);
    RemoveAllLeading(DoiScheme, RemoveAll(RemoveAll(Strip(Lower(t)), HttpsResolver), HttpResolver));
  }

  /**
   `doi:` is deleted after lower-casing: a DOI that lower-cases to `doi:`
   followed by a body normalises as the body does. The body must not start
   with whitespace, which the strip before the deletions would keep.
   */
  lemma NormalizeDropsScheme(s: string, t: string)
    requires Lower(s) == DoiScheme + t
    requires t == [] || !IsSpace(t[0])
    ensures NormalizeDoi(Some(s)) == NormalizeDoi(Some(t))
  {
    CleanedOfLower(s);
    CleanedDropsScheme(t);
  }

  lemma CleanedDropsResolver(t: string)
    requires NoUpper(HttpsResolver + t)
    requires t == [] || !IsSpace(t[0])
    ensures Cleaned(HttpsResolver + t) == Cleaned(t)
  {
    ResolverIsUnpadded(HttpsResolver);
    StrippedAfterPrefix(HttpsResolver, t);
    RemoveAllLeading(HttpsResolver, Strip(Lower(t)));
  }

  /** The same for a DOI that lower-cases to the `https://doi.org/` resolver URL followed by a body. */
  lemma NormalizeDropsResolver(s: string, t: string)
    requires Lower(s) == HttpsResolver + t
    requires t == [] || !IsSpace(t[0])
    ensures NormalizeDoi(Some(s)) == NormalizeDoi(Some(t))
  {
    CleanedOfLower(s);
    CleanedDropsResolver(t);
  }

  /** `http://doi.org/` is not an occurrence of `https://doi.org/`, and its tail holds no `h`. */
  lemma HttpPassesHttps(x: string)
    ensures RemoveAll(HttpResolver + x, HttpsResolver) == HttpResolver + RemoveAll(x, HttpsResolver)
  {
    var s := HttpResolver + x;
    var tail := HttpResolver[1..];
    assert tail == ['t', 't', 'p', ':', '/', '/', 'd', 'o', 'i', '.', 'o', 'r', 'g', '/'];
    assert HttpsResolver[0] !in tail;
    RemoveAllAfterPrefix(tail, x, HttpsResolver);
    if |s| >= |HttpsResolver| {
      assert s[..|HttpsResolver|] != HttpsResolver by {
        assert s[..|HttpsResolver|][4] == ':' != HttpsResolver[4];
      }
      assert s[1..] == tail + x;
      assert HttpResolver == [HttpResolver[0]] + tail;
    } else {
      assert RemoveAll(x, HttpsResolver) == x;
    }
  }

  lemma CleanedDropsHttpResolver(t: string)
    requires NoUpper(HttpResolver + t)
    requires t == [] || !IsSpace(t[0])
    ensures Cleaned(HttpResolver + t) == Cleaned(t)
  {
    var x := Strip(Lower(t));
    var a := RemoveAll(x, HttpsResolver);
    assert Cleaned(HttpResolver + t) == RemoveAll(RemoveAll(RemoveAll(HttpResolver + x, HttpsResolver), HttpResolver), DoiScheme) by {
      ResolverIsUnpadded(HttpResolver);
      StrippedAfterPrefix(HttpResolver, t);
    }
    assert RemoveAll(HttpResolver + x, HttpsResolver) == HttpResolver + a by {
      HttpPassesHttps(x);
    }
    RemoveAllLeading(HttpResolver, a);
  }

  /** The same for the `http://doi.org/` resolver URL. */
  lemma NormalizeDropsHttpResolver(s: string, t: string)
    requires Lower(s) == HttpResolver + t
    requires t == [] || !IsSpace(t[0])
    ensures NormalizeDoi(Some(s)) == NormalizeDoi(Some(t))
  {
    CleanedOfLower(s);
    CleanedDropsHttpResolver(t);
  }

  /**
   A DOI body on which normalisation has nothing left to do: non-empty, no
   surrounding whitespace, no upper-case letter, and none of the three
   deleted substrings in it.
   */
  predicate Plain(t: string)
  {
    && t != [] && !IsSpace(t[0]) && !IsSpace(t[|t| - 1]) && NoUpper(t)
    && !Occurs(t, HttpsResolver) && !Occurs(t, HttpResolver) && !Occurs(t, DoiScheme)
  }

  /** Such a body is its own normal form. */
  lemma NormalizePlain(t: string)
    requires Plain(t)
    ensures NormalizeDoi(Some(t)) == Some(t)
  {
    LowerOfLower(t);
    StripUnpadded(t);
    RemoveAllNoOccurrence(t, HttpsResolver);
    RemoveAllNoOccurrence(t, HttpResolver);
    RemoveAllNoOccurrence(t, DoiScheme);
  }

  lemma PhysRevIsPlain(doi: string)
    requires doi == "10.1103/physrevd.1"
    ensures Plain(doi)
  {
    assert forall i | 0 <= i < |doi| :: !IsUpper(doi[i]);
    NoLeadNoOccurrence(doi, HttpsResolver);
    NoLeadNoOccurrence(doi, HttpResolver);
    NoLeadNoOccurrence(doi, DoiScheme);
  }

  /**
   An ordinary DOI body that contains a `d` and an `h`, but none of the
   deleted substrings, passes through unchanged.
   */
  lemma NormalizeKeepsPhysRev(doi: string)
    requires doi == "10.1103/physrevd.1"
    ensures NormalizeDoi(Some(doi)) == Some(doi)
  {
    PhysRevIsPlain(doi);
    NormalizePlain(doi);
  }

  lemma LowerUpperScheme()
    ensures Lower("DOI:10.1/X") == "doi:10.1/x"
  {
  }

  lemma LowerUrl()
    ensures Lower("https://doi.org/10.1/x") == "https://doi.org/10.1/x"
  {
  }

  lemma PlainExample(doi: string)
    requires doi == "10.1/x"
    ensures Plain(doi) && DoiScheme + doi == "doi:10.1/x" && HttpsResolver + doi == "https://doi.org/10.1/x"
  {
    NoLeadNoOccurrence(doi, HttpsResolver);
    NoLeadNoOccurrence(doi, HttpResolver);
    NoLeadNoOccurrence(doi, DoiScheme);
  }

  /** `"DOI:10.1/X"` normalises to `"10.1/x"`: the scheme is deleted after lower-casing. */
  lemma NormalizeUpperScheme(upper: string, doi: string)
    requires upper == "DOI:10.1/X" && doi == "10.1/x"
    ensures NormalizeDoi(Some(upper)) == Some(doi)
  {
    LowerUpperScheme();
    PlainExample(doi);
    NormalizeDropsScheme(upper, doi);
    NormalizePlain(doi);
  }

  /** `"https://doi.org/10.1/x"` normalises to the same `"10.1/x"`. */
  lemma NormalizeResolverUrl(url: string, doi: string)
    requires url == "https://doi.org/10.1/x" && doi == "10.1/x"
    ensures NormalizeDoi(Some(url)) == Some(doi)
  {
    LowerUrl();
    PlainExample(doi);
    NormalizeDropsResolver(url, doi);
    NormalizePlain(doi);
  }

  /**
   Stripping happens before the prefixes are deleted, so whitespace that
   followed a prefix stays at the front of the result.
   */
  lemma NormalizeKeepsSpaceAfterScheme(s: string, rest: string)
    requires s == "doi: 10.1/x" && rest == " 10.1/x"
    ensures NormalizeDoi(Some(s)) == Some(rest)
  {
    assert s == DoiScheme + rest;
    assert 'h' !in s && 'd' !in rest;
    LowerOfLower(s);
    StripUnpadded(s);
    RemoveAllWithoutLead(s, HttpsResolver);
    RemoveAllWithoutLead(s, HttpResolver);
    RemoveAllLeading(DoiScheme, rest);
    RemoveAllWithoutLead(rest, DoiScheme);
  }

  /** `"doi."` is not `"doi:"`, and no later `d` could start one. */
  lemma HostHasNoScheme(host: string)
    requires host == "doi.org/x"
    ensures RemoveAll(host, DoiScheme) == host
  {
    assert host[..|DoiScheme|] != DoiScheme by {
      assert host[..|DoiScheme|][3] == '.' != DoiScheme[3];
    }
    var rest := host[1..];
    assert forall i | 0 <= i < |rest| :: rest[i] != 'd';
    RemoveAllWithoutLead(rest, DoiScheme);
    assert host == [host[0]] + rest;
  }

  lemma SchemeInsideUrl(s: string, url: string)
    requires s == "https://doi:doi.org/x" && url == "https://doi.org/x"
    ensures RemoveAll(s, DoiScheme) == url
  {
    var scheme, host := "https://", "doi.org/x";
    assert s == scheme + (DoiScheme + host);
    assert url == scheme + host;
    assert forall i | 0 <= i < |scheme| :: scheme[i] != 'd';
    RemoveAllAfterPrefix(scheme, DoiScheme + host, DoiScheme);
    RemoveAllLeading(DoiScheme, host);
    HostHasNoScheme(host);
  }

  lemma NoLaterH(rest: string)
    requires rest == "ttps://doi:doi.org/x"
    ensures 'h' !in rest
  {
    assert forall i | 0 <= i < |rest| :: rest[i] != 'h';
  }

  lemma NotAResolver(s: string, pat: string)
    requires s == "https://doi:doi.org/x"
    requires pat == HttpsResolver || pat == HttpResolver
    ensures |s| >= |pat| && s[..|pat|] != pat
  {
    assert s[..|pat|][4] == 's' && s[..|pat|][11] == ':';
  }

  /** Only the leading `h` could start a resolver URL, and it does not. */
  lemma ResolverDoesNotStart(s: string, pat: string)
    requires s == "https://doi:doi.org/x"
    requires pat == HttpsResolver || pat == HttpResolver
    ensures RemoveAll(s, pat) == s
  {
    var rest := s[1..];
    NoLaterH(rest);
    RemoveAllWithoutLead(rest, pat);
    NotAResolver(s, pat);
    assert s == [s[0]] + rest;
  }

  lemma StripOfExample(s: string)
    requires s == "https://doi:doi.org/x"
    ensures Strip(Lower(s)) == s
  {
    assert forall i | 0 <= i < |s| :: !IsUpper(s[i]);
    LowerOfLower(s);
    StripUnpadded(s);
  }

  lemma CleanedOfExample(s: string, url: string)
    requires s == "https://doi:doi.org/x" && url == "https://doi.org/x"
    ensures Cleaned(s) == url
  {
    calc {
      Cleaned(s);
      RemoveAll(RemoveAll(RemoveAll(Strip(Lower(s)), HttpsResolver), HttpResolver), DoiScheme);
      { StripOfExample(s); }
      RemoveAll(RemoveAll(RemoveAll(s, HttpsResolver), HttpResolver), DoiScheme);
      { ResolverDoesNotStart(s, HttpsResolver); }
      RemoveAll(RemoveAll(s, HttpResolver), DoiScheme);
      { ResolverDoesNotStart(s, HttpResolver); }
      RemoveAll(s, DoiScheme);
      { SchemeInsideUrl(s, url); }
      url;
    }
  }

  lemma ResolverAfterScheme(url: string, body: string)
    requires url == "https://doi.org/x" && body == "x"
    ensures RemoveAll(url, HttpsResolver) == body
  {
    assert url == HttpsResolver + body;
    RemoveAllLeading(HttpsResolver, body);
  }

  /**
   The deletions run in a fixed order and `doi:` goes last: deleting it from
   `"https://doi:doi.org/x"` leaves a resolver URL that the earlier deletion
   of `https://doi.org/` had no occurrence to remove, whereas deleting `doi:`
   first would have left nothing of the URL but `"x"`.
   */
  lemma SchemeDeletedLast(s: string, url: string, body: string)
    requires s == "https://doi:doi.org/x" && url == "https://doi.org/x" && body == "x"
    ensures NormalizeDoi(Some(s)) == Some(url)
    ensures RemoveAll(RemoveAll(s, DoiScheme), HttpsResolver) == body
  {
    CleanedOfExample(s, url);
    SchemeInsideUrl(s, url);
    ResolverAfterScheme(url, body);
  }
}
