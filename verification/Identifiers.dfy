/** Identifiers inside other text: they add nothing for the credential check to find. */
module Identifiers {
  import opened Wrappers
  import opened Text
  import opened Secrets

  /** What an identifier and the punctuation stuck to it are made of. */
  predicate IsWrapped(c: char) {
    IsIdChar(c) || IsTrim(c)
  }

  predicate IsPrintable(c: char) {
    '!' <= c <= '~'
  }

  /** A word no known shape can reach into: it holds none of the characters a shape begins with,
      and something no key block has between its lines. */
  ghost predicate Inert(run: string) {
    && run != "" && (forall i :: 0 <= i < |run| ==> IsWrapped(run[i]))
    && exists i :: 0 <= i < |run| && !IsUpperSpace(run[i])
  }

  ghost predicate Apt(p: Pattern) {
    p.Prefixed? ==>
      p.prefix != "" && !IsWrapped(p.prefix[0]) && forall i :: 0 <= i < |p.prefix| ==> IsPrintable(p.prefix[i])
  }

  // ---- literals and spans across a space ------------------------------------------------------

  /** A text that ends with a space. */
  predicate Ends(u: Unicode, x: string) {
    x != "" && u.isSpace(x[|x| - 1])
  }

  lemma PrefixMeans(literal: string, s: string)
    ensures literal <= s <==> |literal| <= |s| && forall k :: 0 <= k < |literal| ==> s[k] == literal[k]
  {
  }

  /** Printable text found before a space ends before it. */
  lemma LiteralStays(u: Unicode, literal: string, x: string, rest: string)
    requires u.Facts() && Ends(u, x) && forall k :: 0 <= k < |literal| ==> IsPrintable(literal[k])
    ensures literal <= x + rest <==> literal <= x
    ensures literal <= x ==> |literal| < |x| && Ends(u, x[|literal|..])
    ensures literal <= x ==> (x + rest)[|literal|..] == x[|literal|..] + rest
  {
    PrefixMeans(literal, x);
    PrefixMeans(literal, x + rest);
    assert (x + rest)[|x| - 1] == x[|x| - 1] && !IsPrintable(x[|x| - 1]);
    assert forall k :: 0 <= k < |x| ==> (x + rest)[k] == x[k];
  }

  /** A span that does not include the last character is settled before it. */
  lemma SpanStays(x: string, rest: string, p: char -> bool)
    requires x != "" && !p(x[|x| - 1])
    ensures Span(x + rest, p) == Span(x, p) < |x|
  {
    var n := Span(x, p);
    assert n < |x|;
    assert x + rest == x[..n] + (x[n..] + rest);
    assert (x[n..] + rest)[0] == x[n];
    SpanTo(x[..n], x[n..] + rest, p);
  }

  lemma SpanTo(a: string, b: string, p: char -> bool)
    requires (forall i :: 0 <= i < |a| ==> p(a[i])) && b != "" && !p(b[0])
    ensures Span(a + b, p) == |a|
  {
    SpanOfAll(a, b, p);
  }

  // ---- keys with a prefix -----------------------------------------------------------------------

  lemma ClassSpanStays(x: string, rest: string, kind: Class)
    requires x != "" && !InClass(kind, x[|x| - 1])
    ensures ClassSpan(x + rest, kind) == ClassSpan(x, kind)
  {
    SpanStays(x, rest, c => InClass(kind, c));
  }

  lemma PrefixedStays(u: Unicode, p: Pattern, previous: Option<char>, x: string, rest: string)
    requires u.Facts() && Ends(u, x) && p.Prefixed? && Apt(p)
    ensures MatchesHere(p, previous, x + rest) <==> MatchesHere(p, previous, x)
  {
    LiteralStays(u, p.prefix, x, rest);
    if p.prefix <= x {
      var y := x[|p.prefix|..];
      assert !IsPrintable(y[|y| - 1]);
      ClassSpanStays(y, rest, p.body);
    }
  }

  // ---- web tokens ---------------------------------------------------------------------------------

  /** One segment of a token and the dot after it. */
  lemma SegmentStays(u: Unicode, x: string, rest: string, least: nat)
    requires u.Facts() && Ends(u, x)
    ensures Span(x + rest, IsUrlSafe) == Span(x, IsUrlSafe)
    ensures var here, there := AfterSegment(x, least), AfterSegment(x + rest, least);
            if here.None? then there.None? else there == Some(here.value + rest) && Ends(u, here.value)
  {
    assert !IsPrintable(x[|x| - 1]);
    SpanStays(x, rest, IsUrlSafe);
    var n := Span(x, IsUrlSafe);
    assert (x + rest)[n] == x[n] && IsPrintable('.');
    assert n + 1 < |x| ==> (x + rest)[n + 1..] == x[n + 1..] + rest;
  }

  /** The three segments of a token hold no space, so they too are settled before one. */
  lemma JwtBodyStays(u: Unicode, x: string, rest: string)
    requires u.Facts() && Ends(u, x)
    ensures JwtBody(x + rest) <==> JwtBody(x)
  {
    SegmentStays(u, x, rest, 13);
    var claims := AfterSegment(x, 13);
    if claims.Some? {
      SegmentStays(u, claims.value, rest, 16);
      var signature := AfterSegment(claims.value, 16);
      if signature.Some? {
        SegmentStays(u, signature.value, rest, 16);
      }
    }
  }

  lemma JwtStays(u: Unicode, previous: Option<char>, x: string, rest: string)
    requires u.Facts() && Ends(u, x)
    ensures MatchesHere(Jwt, previous, x + rest) <==> MatchesHere(Jwt, previous, x)
  {
    LiteralStays(u, JWT_OPENING, x, rest);
    if JWT_OPENING <= x {
      JwtBodyStays(u, x[3..], rest);
    }
  }

  // ---- key blocks ---------------------------------------------------------------------------------

  /** The closing line of a block, after nothing but capitals, digits and blanks. */
  ghost predicate ClosesAt(s: string, n: int) {
    0 <= n <= |s| && (forall k :: 0 <= k < n ==> IsUpperSpace(s[k])) && PEM_CLOSING <= s[n..]
  }

  lemma PemBodyMeans(s: string)
    ensures PemBody(s) <==> exists n :: ClosesAt(s, n)
  {
    if PemBody(s) {
      var n :| 0 <= n <= Span(s, IsUpperSpace) && PEM_CLOSING <= s[n..];
      assert ClosesAt(s, n);
    }
    if n :| ClosesAt(s, n) {
      assert n <= Span(s, IsUpperSpace);
    }
  }

  lemma ClosingLetters()
    ensures |PEM_CLOSING| == 16 && PEM_CLOSING[0] == 'P' && PEM_CLOSING[8] == 'K'
    ensures forall k :: 0 <= k < 16 && k != 7 ==> IsPrintable(PEM_CLOSING[k])
    ensures !IsWrapped('P') && !IsWrapped('K')
  {
  }

  /** The closing line has one blank in it, and what follows that begins no identifier. */
  lemma ClosingStays(u: Unicode, x: string, run: string, after: string, n: nat)
    requires u.Facts() && Opens(u, x) && Inert(run) && ClosesAt(x + (run + after), n)
    ensures ClosesAt(x, n)
  {
    var s := x + (run + after);
    ClosingLetters();
    assert forall k :: 0 <= k < 16 ==> s[n + k] == s[n..][k] == PEM_CLOSING[k];
    assert forall k :: 0 <= k < |run| ==> s[|x| + k] == run[k];
    var i :| 0 <= i < |run| && !IsUpperSpace(run[i]);
    assert n <= |x| + i;
    assert s[n + 0] == 'P' && n < |x|;
    assert u.isSpace(s[|x| - 1]) && !IsPrintable(s[|x| - 1]);
    assert s[n + 8] == 'K' && IsWrapped(s[|x| + 0]);
    assert n + 16 <= |x|;
    assert forall k :: 0 <= k < n ==> x[k] == s[k];
    assert x[n..][..16] == s[n..][..16] == PEM_CLOSING;
  }

  lemma ClosingReached(x: string, rest: string, n: nat)
    requires ClosesAt(x, n)
    ensures ClosesAt(x + rest, n)
  {
    assert (x + rest)[n..] == x[n..] + rest;
    PrefixMeans(PEM_CLOSING, x[n..]);
    PrefixMeans(PEM_CLOSING, x[n..] + rest);
  }

  lemma PemBodyStays(u: Unicode, x: string, run: string, after: string)
    requires u.Facts() && Opens(u, x) && Inert(run)
    ensures PemBody(x + (run + after)) <==> PemBody(x)
  {
    PemBodyMeans(x + (run + after));
    PemBodyMeans(x);
    if PemBody(x + (run + after)) {
      var n :| ClosesAt(x + (run + after), n);
      ClosingStays(u, x, run, after, n);
    }
    if PemBody(x) {
      var n :| ClosesAt(x, n);
      ClosingReached(x, run + after, n);
    }
  }

  const PEM_WORD := "-----BEGIN"

  lemma OpeningStays(u: Unicode, x: string, rest: string)
    requires u.Facts() && Ends(u, x)
    ensures PEM_OPENING <= x + rest <==> PEM_OPENING <= x
    ensures PEM_OPENING <= x ==> (x + rest)[11..] == x[11..] + rest && Opens(u, x[11..])
  {
    LiteralStays(u, PEM_WORD, x, rest);
    assert PEM_OPENING == PEM_WORD + " ";
    PrefixMeans(PEM_OPENING, x);
    PrefixMeans(PEM_OPENING, x + rest);
    PrefixMeans(PEM_WORD, x);
    PrefixMeans(PEM_WORD, x + rest);
    assert forall k :: 0 <= k < 10 ==> PEM_OPENING[k] == PEM_WORD[k];
  }

  lemma PemStays(u: Unicode, previous: Option<char>, x: string, run: string, after: string)
    requires u.Facts() && Ends(u, x) && Inert(run)
    ensures MatchesHere(PemBlock, previous, x + (run + after)) <==> MatchesHere(PemBlock, previous, x)
  {
    OpeningStays(u, x, run + after);
    if PEM_OPENING <= x {
      PemBodyStays(u, x[11..], run, after);
    }
  }

  // ---- where a shape can begin ----------------------------------------------------------------------

  lemma StaysHere(u: Unicode, p: Pattern, previous: Option<char>, x: string, run: string, after: string)
    requires u.Facts() && Apt(p) && Ends(u, x) && Inert(run)
    ensures MatchesHere(p, previous, x + (run + after)) <==> MatchesHere(p, previous, x)
  {
    match p
    case Prefixed(_, _, _, _) => PrefixedStays(u, p, previous, x, run + after);
    case PemBlock => PemStays(u, previous, x, run, after);
    case Jwt => JwtStays(u, previous, x, run + after);
  }

  lemma StaysBefore(u: Unicode, p: Pattern, before: string, run: string, after: string, i: nat)
    requires u.Facts() && Apt(p) && Opens(u, before) && Inert(run) && i < |before|
    ensures MatchesAt(p, before + (run + after), i) <==> MatchesAt(p, before, i)
  {
    var s := before + (run + after);
    StaysHere(u, p, if i == 0 then None else Some(before[i - 1]), before[i..], run, after);
    assert s[i..] == before[i..] + (run + after);
    assert i > 0 ==> s[i - 1] == before[i - 1];
  }

  /** A literal whose first foreign character stands at `k`, all printable up to there, cannot begin
      in a word. */
  lemma LiteralOutside(u: Unicode, literal: string, k: nat, run: string, after: string, i: nat)
    requires u.Facts() && Closes(u, after) && (forall j :: 0 <= j < |run| ==> IsWrapped(run[j])) && i < |run|
    requires k < |literal| && !IsWrapped(literal[k]) && forall j :: 0 <= j <= k ==> IsPrintable(literal[j])
    ensures !(literal <= (run + after)[i..])
  {
    var t := (run + after)[i..];
    assert forall j :: 0 <= j < |run| - i ==> t[j] == run[i + j];
    assert after != "" ==> t[|run| - i] == after[0] && !IsPrintable(after[0]);
    PrefixMeans(literal, t);
  }

  lemma NothingBegins(u: Unicode, p: Pattern, run: string, after: string, i: nat)
    requires u.Facts() && Apt(p) && Closes(u, after) && Inert(run) && i < |run|
    ensures !(p.Prefixed? && p.prefix <= (run + after)[i..])
    ensures !(p.PemBlock? && PEM_OPENING <= (run + after)[i..])
    ensures !(p.Jwt? && JWT_OPENING <= (run + after)[i..])
  {
    match p
    case Prefixed(prefix, _, _, _) => LiteralOutside(u, prefix, 0, run, after, i);
    case PemBlock => LiteralOutside(u, PEM_OPENING, 5, run, after, i);
    case Jwt => LiteralOutside(u, JWT_OPENING, 1, run, after, i);
  }

  lemma NoneWithin(u: Unicode, p: Pattern, before: string, run: string, after: string, i: nat)
    requires u.Facts() && Apt(p) && Closes(u, after) && Inert(run) && |before| <= i < |before| + |run|
    ensures !MatchesAt(p, before + (run + after), i)
  {
    NothingBegins(u, p, run, after, i - |before|);
    assert (before + (run + after))[i..] == (run + after)[i - |before|..];
  }

  /** What comes after a word is matched as if it stood alone: it begins with a space, and no shape
      begins with one. */
  lemma StaysAfter(u: Unicode, p: Pattern, s: string, from: nat, after: string, i: nat, j: nat)
    requires u.Facts() && Apt(p) && Closes(u, after) && from <= |s| && s[from..] == after && i == from + j
             && j <= |after|
    ensures MatchesAt(p, s, i) <==> MatchesAt(p, after, j)
  {
    assert s[i..] == after[j..];
    if j > 0 {
      assert s[i - 1] == after[j - 1];
    } else {
      NoneAtSpace(u, p, s, i);
      NoneAtSpace(u, p, after, 0);
    }
  }

  lemma NoneAtSpace(u: Unicode, p: Pattern, s: string, j: nat)
    requires u.Facts() && Apt(p) && j <= |s| && (j == |s| || u.isSpace(s[j]))
    ensures !MatchesAt(p, s, j)
  {
    if j < |s| { assert !IsPrintable(s[j]) && s[j..][0] == s[j]; }
  }

  lemma MatchBefore(u: Unicode, p: Pattern, before: string, run: string, after: string, i: nat)
    requires u.Facts() && Apt(p) && Opens(u, before) && Inert(run) && i < |before|
    requires MatchesAt(p, before + (run + after), i)
    ensures Matches(p, before)
  {
    StaysBefore(u, p, before, run, after, i);
  }

  lemma MatchIsThere(p: Pattern, s: string, i: nat)
    requires i <= |s| && MatchesAt(p, s, i)
    ensures Matches(p, s)
  {
  }

  lemma MatchAfter(u: Unicode, p: Pattern, s: string, from: nat, after: string, i: nat)
    requires u.Facts() && Apt(p) && Closes(u, after) && from <= i <= |s| && s[from..] == after && MatchesAt(p, s, i)
    ensures Matches(p, after)
  {
    StaysAfter(u, p, s, from, after, i, i - from);
    MatchIsThere(p, after, i - from);
  }

  lemma MatchIsOnASide(u: Unicode, p: Pattern, before: string, run: string, after: string, s: string, i: nat)
    requires u.Facts() && Apt(p) && Opens(u, before) && Closes(u, after) && Inert(run)
    requires s == before + (run + after) && i <= |s| && MatchesAt(p, s, i)
    ensures Matches(p, before) || Matches(p, after)
  {
    if i < |before| {
      MatchBefore(u, p, before, run, after, i);
    } else if i < |before| + |run| {
      NoneWithin(u, p, before, run, after, i);
    } else {
      var from := |before| + |run|;
      assert s[from..] == after;
      MatchAfter(u, p, s, from, after, i);
    }
  }

  lemma BeforeMatches(u: Unicode, p: Pattern, before: string, run: string, after: string)
    requires u.Facts() && Apt(p) && Opens(u, before) && Inert(run) && Matches(p, before)
    ensures Matches(p, before + (run + after))
  {
    var i :| 0 <= i <= |before| && MatchesAt(p, before, i);
    NoneAtSpace(u, p, before, |before|);
    StaysBefore(u, p, before, run, after, i);
    MatchIsThere(p, before + (run + after), i);
  }

  lemma AfterMatches(u: Unicode, p: Pattern, s: string, from: nat, after: string)
    requires u.Facts() && Apt(p) && Closes(u, after) && from <= |s| && s[from..] == after && Matches(p, after)
    ensures Matches(p, s)
  {
    var j :| 0 <= j <= |after| && MatchesAt(p, after, j);
    var i := from + j;
    StaysAfter(u, p, s, from, after, i, j);
    MatchIsThere(p, s, i);
  }

  /** A word that can hold no match and reach into none leaves a pattern what the texts on its two
      sides give it. */
  lemma MatchesOnEitherSide(u: Unicode, p: Pattern, before: string, run: string, after: string)
    requires u.Facts() && Apt(p) && Opens(u, before) && Closes(u, after) && Inert(run)
    ensures Matches(p, before + (run + after)) <==> Matches(p, before) || Matches(p, after)
  {
    if Matches(p, before + (run + after)) {
      var s := before + (run + after);
      var i :| 0 <= i <= |s| && MatchesAt(p, s, i);
      MatchIsOnASide(u, p, before, run, after, s, i);
    }
    if Matches(p, before) {
      BeforeMatches(u, p, before, run, after);
    }
    if Matches(p, after) {
      assert (before + (run + after))[|before| + |run|..] == after;
      AfterMatches(u, p, before + (run + after), |before| + |run|, after);
    }
  }

  lemma {:induction false} FirstMatchOnEitherSide(u: Unicode, ps: seq<Pattern>, before: string, run: string,
                                                  after: string)
    requires u.Facts() && (forall i :: 0 <= i < |ps| ==> Apt(ps[i]))
    requires Opens(u, before) && Closes(u, after) && Inert(run)
    ensures FirstMatch(ps, before + (run + after)).Some? <==>
              FirstMatch(ps, before).Some? || FirstMatch(ps, after).Some?
  {
    if ps != [] {
      MatchesOnEitherSide(u, ps[0], before, run, after);
      FirstMatchOnEitherSide(u, ps[1..], before, run, after);
    }
  }

  lemma PatternsAreApt()
    ensures forall i :: 0 <= i < |PATTERNS| ==> Apt(PATTERNS[i])
  {
  }

  // ---- dense runs -----------------------------------------------------------------------------------

  lemma {:induction false} FirstDenseOfConcat(a: seq<string>, b: seq<string>)
    ensures FirstDense(a + b).Some? <==> FirstDense(a).Some? || FirstDense(b).Some?
  {
    if a == [] {
      assert a + b == b;
    } else {
      assert (a + b)[0] == a[0] && (a + b)[1..] == a[1..] + b;
      FirstDenseOfConcat(a[1..], b);
    }
  }

  lemma DenseOnEitherSide(u: Unicode, before: string, run: string, after: string)
    requires Opens(u, before) && Closes(u, after) && run != "" && forall c :: c in run ==> u.NotSpace(c)
    requires EntropyReason(Trim(run, IsTrim)) == None
    ensures FirstDense(Runs(before + (run + after), u.NotSpace)).Some?
            <==> FirstDense(Runs(before, u.NotSpace)).Some? || FirstDense(Runs(after, u.NotSpace)).Some?
  {
    RunsAroundWord(u, before, run, after);
    var rest := Runs(after, u.NotSpace);
    FirstDenseOfConcat(Runs(before, u.NotSpace), [run] + rest);
    assert ([run] + rest)[1..] == rest;
  }

  // ---- identifiers ------------------------------------------------------------------------------------

  lemma InertIsAWord(u: Unicode, run: string)
    requires u.Facts() && Inert(run)
    ensures run != "" && forall c :: c in run ==> u.NotSpace(c)
  {
    assert forall c :: c in run ==> IsWrapped(c) && IsPrintable(c);
  }

  lemma WordIsFoundOnEitherSide(u: Unicode, before: string, run: string, after: string)
    requires u.Facts() && Opens(u, before) && Closes(u, after) && Inert(run) && EntropyReason(Trim(run, IsTrim)) == None
    ensures LooksLikeACredential(u, before + (run + after)).Some?
            <==> LooksLikeACredential(u, before).Some? || LooksLikeACredential(u, after).Some?
  {
    PatternsAreApt();
    FirstMatchOnEitherSide(u, PATTERNS, before, run, after);
    InertIsAWord(u, run);
    DenseOnEitherSide(u, before, run, after);
  }

  lemma WrappedIsInert(lead: string, id: string, tail: string)
    requires (forall c :: c in lead ==> IsTrim(c)) && (forall c :: c in tail ==> IsTrim(c))
    requires IsIdentifier(id)
    ensures Inert(lead + (id + tail))
  {
    IdentifierChars(id);
    var k :| 0 <= k < |id| && (id[k] == '-' || id[k] == '_');
    InertAround(lead, id, tail, k);
  }

  lemma InertAround(lead: string, id: string, tail: string, k: nat)
    requires (forall c :: c in lead ==> IsTrim(c)) && (forall c :: c in tail ==> IsTrim(c))
    requires (forall c :: c in id ==> IsIdChar(c)) && k < |id| && !IsUpperSpace(id[k])
    ensures Inert(lead + (id + tail))
  {
    var run := lead + (id + tail);
    assert forall i :: 0 <= i < |run| ==> run[i] in lead || run[i] in id || run[i] in tail;
    assert run[|lead| + k] == id[k];
  }

  lemma WrappedIsTrimmed(lead: string, id: string, tail: string)
    requires (forall c :: c in lead ==> IsTrim(c)) && (forall c :: c in tail ==> IsTrim(c))
    requires IsIdentifier(id)
    ensures Trim(lead + (id + tail), IsTrim) == id
  {
    IdentifierChars(id);
    assert id[0] in id && id[|id| - 1] in id;
    TrimWrapped(lead, id, tail, IsTrim);
  }

  /** No identifier is ever what a text is refused for: with any of the trimmed punctuation stuck to
      it on either side, it may stand anywhere between spaces, and the text is refused exactly if
      what is before it or what is after it would be refused on its own. */
  lemma IdentifiersAreNeverTheReason(u: Unicode, before: string, lead: string, id: string, tail: string, after: string)
    requires u.Facts() && IsIdentifier(id) && Opens(u, before) && Closes(u, after)
    requires (forall c :: c in lead ==> IsTrim(c)) && (forall c :: c in tail ==> IsTrim(c))
    ensures LooksLikeACredential(u, before + (lead + (id + tail) + after)).Some?
            <==> LooksLikeACredential(u, before).Some? || LooksLikeACredential(u, after).Some?
  {
    WrappedIsInert(lead, id, tail);
    WrappedIsTrimmed(lead, id, tail);
    IdentifierIsNotDense(id);
    WordIsFoundOnEitherSide(u, before, lead + (id + tail), after);
  }

  /** So an identifier alone, however wrapped, is accepted. */
  lemma IdentifiersAreNeverRefused(u: Unicode, lead: string, id: string, tail: string)
    requires u.Facts() && IsIdentifier(id)
    requires (forall c :: c in lead ==> IsTrim(c)) && (forall c :: c in tail ==> IsTrim(c))
    ensures LooksLikeACredential(u, lead + (id + tail)) == None
  {
    IdentifiersAreNeverTheReason(u, "", lead, id, tail, "");
    assert "" + (lead + (id + tail) + "") == lead + (id + tail);
    NothingInNothing(u);
  }

  lemma NothingInNothing(u: Unicode)
    requires u.Facts()
    ensures LooksLikeACredential(u, "") == None
  {
    IdsHaveNoKnownShape("");
  }
}
