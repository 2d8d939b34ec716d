/** What the credential check refuses, said by where it stands in the text: the known keys with
    their bodies, private key blocks, web tokens, and runs too dense to be words.  Nothing here
    goes through the list of patterns or the order in which they are tried. */
module Shapes {
  import opened Wrappers
  import opened Text
  import opened Secrets

  /** Letters and digits of ASCII, and what else is listed. */
  predicate Listed(c: char, others: string) {
    'a' <= c <= 'z' || 'A' <= c <= 'Z' || '0' <= c <= '9' || c in others
  }

  predicate UpperOr(c: char, others: string) {
    'A' <= c <= 'Z' || '0' <= c <= '9' || c in others
  }

  // ---- the known keys ---------------------------------------------------------------------------

  /** At `i` a prefix with no letter or digit before it, and so many characters of its body. */
  ghost predicate KeyAt(text: string, i: nat, prefix: string, body: char -> bool, least: nat) {
    && i + |prefix| + least <= |text|
    && (i == 0 || !Listed(text[i - 1], ""))
    && text[i..i + |prefix|] == prefix
    && forall j :: i + |prefix| <= j < i + |prefix| + least ==> body(text[j])
  }

  ghost predicate HoldsKey(text: string, prefix: string, body: char -> bool, least: nat) {
    exists i: nat :: KeyAt(text, i, prefix, body, least)
  }

  ghost predicate HoldsKnownKey(text: string) {
    || HoldsKey(text, "sk-", c => Listed(c, "_-"), 8)
    || HoldsKey(text, "github_pat_", c => Listed(c, "_"), 20)
    || HoldsKey(text, "ghp_", c => Listed(c, ""), 20)
    || HoldsKey(text, "xoxb-", c => Listed(c, "-"), 10)
    || HoldsKey(text, "xoxa-", c => Listed(c, "-"), 10)
    || HoldsKey(text, "xoxp-", c => Listed(c, "-"), 10)
    || HoldsKey(text, "xoxs-", c => Listed(c, "-"), 10)
    || HoldsKey(text, "xoxr-", c => Listed(c, "-"), 10)
    || HoldsKey(text, "AKIA", c => UpperOr(c, ""), 12)
    || HoldsKey(text, "AIza", c => Listed(c, "_-"), 20)
  }

  lemma SpanAtLeast(s: string, p: char -> bool, n: nat)
    ensures Span(s, p) >= n <==> n <= |s| && forall i :: 0 <= i < n ==> p(s[i])
  {
  }

  lemma KeyHere(text: string, i: nat, prefix: string, kind: Class, least: nat, reason: Reason)
    requires i <= |text|
    ensures MatchesAt(Prefixed(prefix, kind, least, reason), text, i)
            <==> KeyAt(text, i, prefix, c => InClass(kind, c), least)
  {
    if i + |prefix| <= |text| {
      assert text[i..][..|prefix|] == text[i..i + |prefix|] && text[i..][|prefix|..] == text[i + |prefix|..];
      KeyBody(text, i + |prefix|, text[i + |prefix|..], kind, least);
    }
  }

  lemma KeyBody(text: string, from: nat, rest: string, kind: Class, least: nat)
    requires from <= |text| && rest == text[from..]
    ensures ClassSpan(rest, kind) >= least <==>
              from + least <= |text| && forall j :: from <= j < from + least ==> InClass(kind, text[j])
  {
    SpanAtLeast(rest, c => InClass(kind, c), least);
    assert forall j :: 0 <= j < |rest| ==> rest[j] == text[from + j];
    assert forall j :: from <= j < |text| ==> text[j] == rest[j - from];
  }

  lemma KeyAnywhere(text: string, prefix: string, kind: Class, least: nat, reason: Reason, body: char -> bool)
    requires forall c :: body(c) <==> InClass(kind, c)
    ensures Matches(Prefixed(prefix, kind, least, reason), text) <==> HoldsKey(text, prefix, body, least)
  {
    forall i: nat | i <= |text|
      ensures MatchesAt(Prefixed(prefix, kind, least, reason), text, i) <==> KeyAt(text, i, prefix, body, least)
    {
      KeyHere(text, i, prefix, kind, least, reason);
    }
  }

  // ---- private key blocks and web tokens ------------------------------------------------------------

  /** The opening, capitals, digits and spaces, and the closing. */
  ghost predicate HoldsKeyBlock(text: string) {
    exists i: nat :: KeyBlockFrom(text, i)
  }

  ghost predicate KeyBlockFrom(text: string, i: nat) {
    exists j: nat :: KeyBlockAt(text, i, j)
  }

  ghost predicate KeyBlockAt(text: string, i: nat, j: nat) {
    && i + 11 <= j <= |text| - 16
    && text[i..i + 11] == "-----BEGIN " && text[j..j + 16] == "PRIVATE KEY-----"
    && forall k :: i + 11 <= k < j ==> UpperOr(text[k], " ")
  }

  lemma KeyBlockEnds(text: string, from: nat, j: nat)
    requires from <= j <= |text|
    ensures (j - from <= Span(text[from..], IsUpperSpace) && PEM_CLOSING <= text[from..][j - from..]) <==>
              j <= |text| - 16 && text[j..j + 16] == "PRIVATE KEY-----"
              && forall k :: from <= k < j ==> UpperOr(text[k], " ")
  {
    var rest := text[from..];
    SpanAtLeast(rest, IsUpperSpace, j - from);
    assert forall k :: from <= k < |text| ==> text[k] == rest[k - from];
    assert rest[j - from..] == text[j..];
    if j <= |text| - 16 { assert text[j..][..16] == text[j..j + 16]; }
  }

  lemma KeyBlockBody(text: string, from: nat)
    requires 11 <= from <= |text| && text[from - 11..from] == "-----BEGIN "
    ensures PemBody(text[from..]) <==> KeyBlockFrom(text, from - 11)
  {
    if PemBody(text[from..]) {
      var n :| 0 <= n <= Span(text[from..], IsUpperSpace) && PEM_CLOSING <= text[from..][n..];
      KeyBlockEnds(text, from, from + n);
      assert KeyBlockAt(text, from - 11, from + n);
    }
    var i := from - 11;
    if j: nat :| KeyBlockAt(text, i, j) {
      KeyBlockEnds(text, from, j);
    }
  }

  lemma KeyBlockHere(text: string, i: nat)
    requires i <= |text|
    ensures MatchesAt(PemBlock, text, i) <==> KeyBlockFrom(text, i)
  {
    if i + 11 <= |text| {
      assert text[i..][..11] == text[i..i + 11] && text[i..][11..] == text[i + 11..];
      if text[i..i + 11] == "-----BEGIN " { KeyBlockBody(text, i + 11); }
    }
  }

  lemma KeyBlockAnywhere(text: string)
    ensures Matches(PemBlock, text) <==> HoldsKeyBlock(text)
  {
    forall i: nat | i <= |text| ensures MatchesAt(PemBlock, text, i) <==> KeyBlockFrom(text, i) {
      KeyBlockHere(text, i);
    }
    assert forall i: nat :: KeyBlockFrom(text, i) ==> i <= |text|;
  }

  /** From `a` to `b` a segment of so many characters that may stand in a URL. */
  ghost predicate Segment(text: string, a: int, b: int, least: nat) {
    0 <= a && a + least <= b <= |text| && forall k :: a <= k < b ==> UrlSafeAt(text, k)
  }

  predicate UrlSafeAt(text: string, k: int) {
    0 <= k < |text| && Listed(text[k], "_-")
  }

  ghost predicate DottedSegment(text: string, from: int, dot: int, least: nat) {
    Segment(text, from, dot, least) && dot < |text| && text[dot] == '.'
  }

  /** Two such segments with a dot between them, and three. */
  ghost predicate TwoSegments(text: string, from: nat) {
    exists dot: nat :: DottedSegment(text, from, dot, 16) && Segment(text, dot + 1, dot + 17, 16)
  }

  ghost predicate ThreeSegments(text: string, from: nat) {
    exists dot: nat :: DottedSegment(text, from, dot, 13) && TwoSegments(text, dot + 1)
  }

  /** Three segments, the first starting as JSON does. */
  ghost predicate WebTokenFrom(text: string, i: nat) {
    && i + 3 <= |text| && text[i..i + 3] == "eyJ" && (i == 0 || !Listed(text[i - 1], "_-."))
    && ThreeSegments(text, i + 3)
  }

  ghost predicate HoldsWebToken(text: string) {
    exists i: nat :: WebTokenFrom(text, i)
  }

  lemma SegmentIsSpan(text: string, from: nat, n: nat)
    requires from <= |text|
    ensures Span(text[from..], IsUrlSafe) >= n <==> Segment(text, from, from + n, n)
  {
    var rest := text[from..];
    SpanAtLeast(rest, IsUrlSafe, n);
    assert forall k :: 0 <= k < |rest| ==> rest[k] == text[from + k];
    if Segment(text, from, from + n, n) {
      forall k | 0 <= k < n ensures IsUrlSafe(rest[k]) {
        assert UrlSafeAt(text, from + k);
      }
    }
    if Span(rest, IsUrlSafe) >= n {
      forall k | from <= k < from + n ensures UrlSafeAt(text, k) {
        assert IsUrlSafe(rest[k - from]);
      }
    }
  }

  lemma DotEnds(text: string, from: nat, dot: nat, least: nat)
    requires from <= dot < |text| && dot == from + Span(text[from..], IsUrlSafe)
    ensures AfterSegment(text[from..], least)
            == if dot - from >= least && text[dot] == '.' then Some(text[dot + 1..]) else None
  {
    assert text[from..][dot - from..] == text[dot..] && text[from..][dot - from + 1..] == text[dot + 1..];
  }

  lemma SegmentHere(text: string, from: nat, least: nat, dot: nat)
    requires from <= |text| && DottedSegment(text, from, dot, least)
    ensures AfterSegment(text[from..], least) == Some(text[dot + 1..])
  {
    assert Segment(text, from, dot, dot - from) && !UrlSafeAt(text, dot);
    SegmentIsSpan(text, from, dot - from);
    SegmentIsSpan(text, from, dot - from + 1);
    DotEnds(text, from, dot, least);
  }

  lemma SegmentThere(text: string, from: nat, least: nat) returns (dot: nat)
    requires from <= |text| && AfterSegment(text[from..], least).Some?
    ensures DottedSegment(text, from, dot, least) && AfterSegment(text[from..], least) == Some(text[dot + 1..])
  {
    dot := from + Span(text[from..], IsUrlSafe);
    SegmentIsSpan(text, from, dot - from);
    DotEnds(text, from, dot, least);
  }

  /** What has to follow the first segment. */
  ghost predicate TokenTail(s: string) {
    AfterSegment(s, 16).Some? && Span(AfterSegment(s, 16).value, IsUrlSafe) >= 16
  }

  lemma TokenTailIs(text: string, from: nat)
    requires from <= |text|
    ensures TokenTail(text[from..]) <==> TwoSegments(text, from)
  {
    if TokenTail(text[from..]) {
      var dot := SegmentThere(text, from, 16);
      SegmentIsSpan(text, dot + 1, 16);
    }
    if dot: nat :| DottedSegment(text, from, dot, 16) && Segment(text, dot + 1, dot + 17, 16) {
      SegmentHere(text, from, 16, dot);
      SegmentIsSpan(text, dot + 1, 16);
    }
  }

  lemma TokenIsTail(s: string)
    ensures JwtBody(s) <==> AfterSegment(s, 13).Some? && TokenTail(AfterSegment(s, 13).value)
  {
  }

  lemma TailGivesThree(text: string, from: nat, tail: string)
    requires from <= |text| && AfterSegment(text[from..], 13) == Some(tail) && TokenTail(tail)
    ensures ThreeSegments(text, from)
  {
    var dot := SegmentThere(text, from, 13);
    TailGivesTwo(text, dot + 1, tail);
  }

  lemma TailGivesTwo(text: string, from: nat, tail: string)
    requires from <= |text| && tail == text[from..] && TokenTail(tail)
    ensures TwoSegments(text, from)
  {
    TokenTailIs(text, from);
  }

  lemma ThreeGiveTail(text: string, from: nat) returns (dot: nat)
    requires from <= |text| && ThreeSegments(text, from)
    ensures dot < |text| && AfterSegment(text[from..], 13) == Some(text[dot + 1..]) && TokenTail(text[dot + 1..])
  {
    dot :| DottedSegment(text, from, dot, 13) && TwoSegments(text, dot + 1);
    SegmentHere(text, from, 13, dot);
    TokenTailIs(text, dot + 1);
  }

  lemma WebTokenBody(text: string, from: nat)
    requires from <= |text|
    ensures JwtBody(text[from..]) <==> ThreeSegments(text, from)
  {
    TokenIsTail(text[from..]);
    if JwtBody(text[from..]) { TailGivesThree(text, from, AfterSegment(text[from..], 13).value); }
    if ThreeSegments(text, from) { var _ := ThreeGiveTail(text, from); }
  }

  lemma WebTokenHere(text: string, i: nat)
    requires i <= |text|
    ensures MatchesAt(Jwt, text, i) <==> WebTokenFrom(text, i)
  {
    if i + 3 <= |text| {
      WebTokenBody(text, i + 3);
      WebTokenStart(text, i, text[i..], text[i + 3..]);
    }
  }

  lemma WebTokenStart(text: string, i: nat, s: string, body: string)
    requires i + 3 <= |text| && s == text[i..] && body == text[i + 3..]
    ensures JWT_OPENING <= s <==> text[i..i + 3] == "eyJ"
    ensures s[|JWT_OPENING|..] == body
  {
    assert s[..3] == text[i..i + 3];
  }

  lemma WebTokenAnywhere(text: string)
    ensures Matches(Jwt, text) <==> HoldsWebToken(text)
  {
    forall i: nat | i <= |text| ensures MatchesAt(Jwt, text, i) <==> WebTokenFrom(text, i) {
      WebTokenHere(text, i);
    }
    assert forall i: nat :: WebTokenFrom(text, i) ==> i <= |text|;
  }

  // ---- dense runs -------------------------------------------------------------------------------------

  /** Thirty-two characters or more of one alphabet, with a letter and a digit among them, and at
      least three fifths of the different characters that so long a text of that alphabet could
      have: sixteen for hexadecimal, sixty-four otherwise. */
  ghost predicate IsDense(key: string) {
    var variety := |set c | c in key|;
    var hex := forall c :: c in key ==> '0' <= c <= '9' || 'a' <= c <= 'f' || 'A' <= c <= 'F';
    && |key| >= 32
    && (forall c :: c in key ==> Listed(c, "-_="))
    && (exists c :: c in key && ('a' <= c <= 'z' || 'A' <= c <= 'Z')) && (exists c :: c in key && '0' <= c <= '9')
    && (hex ==> 5 * variety >= 3 * 16)
    && (!hex ==> 5 * variety >= 3 * (if |key| < 64 then |key| else 64))
  }

  lemma DenseExactly(key: string)
    ensures EntropyReason(key).Some? <==> IsDense(key)
  {
    assert CharsOf(key) == set c | c in key;
    assert (forall c :: c in key ==> IsHex(c)) ==> forall c :: c in key ==> IsBase64Url(c);
  }

  /** A run of the text that is `key` once the punctuation around it is taken off. */
  ghost predicate StandsAlone(u: Unicode, text: string, key: string) {
    exists a, b :: StandsAt(u, text, a, b, key)
  }

  ghost predicate StandsAt(u: Unicode, text: string, a: int, b: int, key: string) {
    IsRun(text, c => !u.isSpace(c), a, b) && IsCore(text[a..b], c => c in "\"'`.,;:!?()[]{}<>", key)
  }

  lemma {:induction false} FirstDenseIs(runs: seq<string>)
    ensures FirstDense(runs).Some? <==> exists run :: run in runs && EntropyReason(Trim(run, IsTrim)).Some?
  {
    if runs != [] {
      FirstDenseIs(runs[1..]);
      if run :| run in runs && EntropyReason(Trim(run, IsTrim)).Some? {
        if run != runs[0] { assert run in runs[1..]; }
      }
    }
  }

  lemma CoreOfPunctuation(run: string, key: string)
    ensures IsCore(run, c => c in "\"'`.,;:!?()[]{}<>", key) <==> key == Trim(run, IsTrim)
  {
    var listed := (c: char) => c in "\"'`.,;:!?()[]{}<>";
    PunctuationListed();
    TrimIsCore(run, IsTrim, key);
    SameCore(run, IsTrim, listed, key);
  }

  lemma PunctuationListed()
    ensures forall c: char :: IsTrim(c) <==> c in "\"'`.,;:!?()[]{}<>"
  {
    forall c: char ensures IsTrim(c) <==> c in "\"'`.,;:!?()[]{}<>" {
      assert "\"'`.,;:!?()[]{}<>" == ['"', '\'', '`', '.', ',', ';', ':', '!', '?', '(', ')', '[', ']', '{', '}',
                                      '<', '>'];
    }
  }

  lemma SameCore(s: string, p: char -> bool, q: char -> bool, core: string)
    requires forall c :: p(c) <==> q(c)
    ensures IsCore(s, p, core) <==> IsCore(s, q, core)
  {
    forall a, b ensures IsMargin(s, p, a, b) <==> IsMargin(s, q, a, b) {
    }
  }

  lemma DenseAnywhere(u: Unicode, text: string)
    ensures FirstDense(Runs(text, u.NotSpace)).Some? <==> exists key :: StandsAlone(u, text, key) && IsDense(key)
  {
    var runs, visible := Runs(text, u.NotSpace), (c: char) => !u.isSpace(c);
    SameRuns(text, u.NotSpace, visible);
    FirstDenseIs(runs);
    if run :| run in runs && EntropyReason(Trim(run, IsTrim)).Some? {
      RunsAreStretches(text, visible, run);
      var a, b :| IsRun(text, visible, a, b) && text[a..b] == run;
      CoreOfPunctuation(run, Trim(run, IsTrim));
      DenseExactly(Trim(run, IsTrim));
      assert StandsAt(u, text, a, b, Trim(run, IsTrim));
    }
    if key :| StandsAlone(u, text, key) && IsDense(key) {
      var a, b :| StandsAt(u, text, a, b, key);
      RunsAreStretches(text, visible, text[a..b]);
      CoreOfPunctuation(text[a..b], key);
      DenseExactly(key);
      assert text[a..b] in runs;
    }
  }

  // ---- all of it ----------------------------------------------------------------------------------------

  ghost predicate CredentialShaped(u: Unicode, text: string) {
    || HoldsKnownKey(text) || HoldsKeyBlock(text) || HoldsWebToken(text)
    || exists key :: StandsAlone(u, text, key) && IsDense(key)
  }

  lemma {:induction false} FirstMatchIs(patterns: seq<Pattern>, text: string)
    ensures FirstMatch(patterns, text).Some? <==> exists i :: 0 <= i < |patterns| && Matches(patterns[i], text)
  {
    if patterns != [] {
      FirstMatchIs(patterns[1..], text);
      if i :| 0 <= i < |patterns[1..]| && Matches(patterns[1..][i], text) { assert Matches(patterns[i + 1], text); }
      if i :| 0 <= i < |patterns| && Matches(patterns[i], text) {
        if i > 0 { assert patterns[1..][i - 1] == patterns[i]; }
      }
    }
  }

  lemma KnownShapes(text: string)
    ensures FirstMatch(PATTERNS, text).Some? <==> HoldsKnownKey(text) || HoldsKeyBlock(text) || HoldsWebToken(text)
  {
    FirstMatchIs(PATTERNS, text);
    KeyAnywhere(text, "sk-", UrlSafe, 8, OpenAiKey, c => Listed(c, "_-"));
    KeyAnywhere(text, "github_pat_", AlnumUnder, 20, GitHubFineGrained, c => Listed(c, "_"));
    KeyAnywhere(text, "ghp_", Alnum, 20, GitHubPersonal, c => Listed(c, ""));
    KeyAnywhere(text, "xoxb-", AlnumHyphen, 10, SlackToken, c => Listed(c, "-"));
    KeyAnywhere(text, "xoxa-", AlnumHyphen, 10, SlackToken, c => Listed(c, "-"));
    KeyAnywhere(text, "xoxp-", AlnumHyphen, 10, SlackToken, c => Listed(c, "-"));
    KeyAnywhere(text, "xoxs-", AlnumHyphen, 10, SlackToken, c => Listed(c, "-"));
    KeyAnywhere(text, "xoxr-", AlnumHyphen, 10, SlackToken, c => Listed(c, "-"));
    KeyAnywhere(text, "AKIA", Upper, 12, AwsKeyId, c => UpperOr(c, ""));
    KeyAnywhere(text, "AIza", UrlSafe, 20, GoogleApiKey, c => Listed(c, "_-"));
    KeyBlockAnywhere(text);
    WebTokenAnywhere(text);
    TwelveShapes(text);
  }

  lemma TwelveShapes(text: string)
    ensures (exists i :: 0 <= i < |PATTERNS| && Matches(PATTERNS[i], text)) <==>
              || Matches(PATTERNS[0], text) || Matches(PATTERNS[1], text) || Matches(PATTERNS[2], text)
              || Matches(PATTERNS[3], text) || Matches(PATTERNS[4], text) || Matches(PATTERNS[5], text)
              || Matches(PATTERNS[6], text) || Matches(PATTERNS[7], text) || Matches(PATTERNS[8], text)
              || Matches(PATTERNS[9], text) || Matches(PATTERNS[10], text) || Matches(PATTERNS[11], text)
  {
    if i :| 0 <= i < |PATTERNS| && Matches(PATTERNS[i], text) {
      assert i in {0, 1, 2, 3, 4, 5, 6, 7, 8, 9, 10, 11};
    }
  }

  /** The check refuses a text exactly if it is shaped like a credential somewhere. */
  lemma RefusedExactly(u: Unicode, text: string)
    ensures LooksLikeACredential(u, text).Some? <==> CredentialShaped(u, text)
  {
    KnownShapes(text);
    DenseAnywhere(u, text);
  }

  /** So key material is refused wherever it stands: inside any text, with any of the trimmed
      punctuation stuck to it on either side. */
  lemma DenseKeyIsRefused(u: Unicode, before: string, lead: string, key: string, tail: string, after: string)
    requires u.Facts() && IsDense(key)
    requires (forall c :: c in lead ==> IsTrim(c)) && (forall c :: c in tail ==> IsTrim(c))
    requires Opens(u, before) && Closes(u, after)
    ensures LooksLikeACredential(u, before + (lead + (key + tail) + after)).Some?
  {
    DenseExactly(key);
    JudgedDenseIsRefused(u, before, lead, key, tail, after);
  }
}
