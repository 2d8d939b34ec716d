/** Refusing credential-shaped text. */
module Secrets {
  import opened Wrappers
  import opened Text
  import opened Sets
  import opened Tables

  const MIN_RUN_LENGTH := 32

  datatype Alphabet = Hexadecimal | Base64Url
  {
    function Size(): int {
      match this
      case Hexadecimal => 16
      case Base64Url => 64
    }
  }

  /** Why a text was refused.  A reason names the rule and by its type holds none of the text. */
  datatype Reason = OpenAiKey | GitHubFineGrained | GitHubPersonal | SlackToken | AwsKeyId | GoogleApiKey
                  | PrivateKeyBlock | JsonWebToken | DenseRun(length: nat, alphabet: Alphabet)

  // ---- the characters -----------------------------------------------------------------

  predicate IsLetter(c: char) { 'a' <= c <= 'z' || 'A' <= c <= 'Z' }
  predicate IsDecimal(c: char) { '0' <= c <= '9' }
  predicate IsUpper(c: char) { 'A' <= c <= 'Z' || IsDecimal(c) }
  predicate IsAlnum(c: char) { IsLetter(c) || IsDecimal(c) }
  predicate IsUrlSafe(c: char) { IsAlnum(c) || c == '_' || c == '-' }
  predicate IsUpperSpace(c: char) { IsUpper(c) || c == ' ' }
  predicate IsHex(c: char) { IsDecimal(c) || 'a' <= c <= 'f' || 'A' <= c <= 'F' }
  predicate IsBase64Url(c: char) { IsUrlSafe(c) || c == '=' }

  /** The punctuation stripped from a run before it is judged. */
  predicate IsTrim(c: char) {
    c == '"' || c == '\'' || c == '`' || c == '.' || c == ',' || c == ';' || c == ':' || c == '!' || c == '?'
    || c == '(' || c == ')' || c == '[' || c == ']' || c == '{' || c == '}' || c == '<' || c == '>'
  }


  // ---- the known shapes ---------------------------------------------------------------

  datatype Class = UrlSafe | AlnumUnder | Alnum | AlnumHyphen | Upper

  predicate InClass(kind: Class, c: char) {
    match kind
    case UrlSafe => IsUrlSafe(c)
    case AlnumUnder => IsAlnum(c) || c == '_'
    case Alnum => IsAlnum(c)
    case AlnumHyphen => IsAlnum(c) || c == '-'
    case Upper => IsUpper(c)
  }

  /** One pattern of the list: a literal prefix, not preceded by a letter or digit, and a
      plausible body after it; a PEM private key block; or the three segments of a JWT. */
  datatype Pattern = Prefixed(prefix: string, body: Class, least: nat, reason: Reason) | PemBlock | Jwt

  const PATTERNS: seq<Pattern> := [
    Prefixed("sk-", UrlSafe, 8, OpenAiKey),
    Prefixed("github_pat_", AlnumUnder, 20, GitHubFineGrained),
    Prefixed("ghp_", Alnum, 20, GitHubPersonal),
    Prefixed("xoxb-", AlnumHyphen, 10, SlackToken),
    Prefixed("xoxa-", AlnumHyphen, 10, SlackToken),
    Prefixed("xoxp-", AlnumHyphen, 10, SlackToken),
    Prefixed("xoxs-", AlnumHyphen, 10, SlackToken),
    Prefixed("xoxr-", AlnumHyphen, 10, SlackToken),
    Prefixed("AKIA", Upper, 12, AwsKeyId),
    Prefixed("AIza", UrlSafe, 20, GoogleApiKey),
    PemBlock,
    Jwt
  ]

  const PEM_OPENING := "-----BEGIN "
  const PEM_CLOSING := "PRIVATE KEY-----"
  const JWT_OPENING := "eyJ"

  function ReasonOf(p: Pattern): Reason {
    match p
    case Prefixed(_, _, _, reason) => reason
    case PemBlock => PrivateKeyBlock
    case Jwt => JsonWebToken
  }

  function ClassSpan(s: string, kind: Class): nat {
    Span(s, c => InClass(kind, c))
  }

  /** Whether the pattern matches at the start of `s`, with `previous` in front of it. */
  predicate MatchesHere(p: Pattern, previous: Option<char>, s: string) {
    match p
    case Prefixed(prefix, body, least, _) =>
      && !(previous.Some? && IsAlnum(previous.value))
      && prefix <= s
      && ClassSpan(s[|prefix|..], body) >= least
    case PemBlock => PEM_OPENING <= s && PemBody(s[|PEM_OPENING|..])
    case Jwt =>
      && !(previous.Some? && (IsUrlSafe(previous.value) || previous.value == '.'))
      && JWT_OPENING <= s
      && JwtBody(s[|JWT_OPENING|..])
  }

  predicate MatchesAt(p: Pattern, text: string, i: nat)
    requires i <= |text|
  {
    MatchesHere(p, if i == 0 then None else Some(text[i - 1]), text[i..])
  }

  predicate PemBody(s: string) {
    exists n :: 0 <= n <= Span(s, IsUpperSpace) && PEM_CLOSING <= s[n..]
  }

  /** What follows a segment of at least so many characters and the dot after it.  No segment can
      hold a dot, so each is as long as it can be. */
  function AfterSegment(s: string, least: nat): Option<string> {
    var n := Span(s, IsUrlSafe);
    if n >= least && "." <= s[n..] then Some(s[n + 1..]) else None
  }

  /** Three segments separated by dots. */
  predicate JwtBody(s: string) {
    var claims := AfterSegment(s, 13);
    claims.Some? &&
    var signature := AfterSegment(claims.value, 16);
    signature.Some? && Span(signature.value, IsUrlSafe) >= 16
  }

  predicate Matches(p: Pattern, text: string) {
    exists i :: 0 <= i <= |text| && MatchesAt(p, text, i)
  }

  /** The first pattern of the list that matches anywhere. */
  function FirstMatch(patterns: seq<Pattern>, text: string): Option<Reason> {
    if patterns == [] then None
    else if Matches(patterns[0], text) then Some(ReasonOf(patterns[0]))
    else FirstMatch(patterns[1..], text)
  }

  // ---- the dense run ------------------------------------------------------------------

  function CharsOf(s: string): set<char> {
    set c | c in s
  }

  function AlphabetOf(run: string): Option<Alphabet> {
    if forall c :: c in run ==> IsHex(c) then Some(Hexadecimal)
    else if forall c :: c in run ==> IsBase64Url(c) then Some(Base64Url)
    else None
  }

  /** One alphabet, letters mixed with digits, and at least three fifths of the distinct
      characters a run that length could have. */
  function EntropyReason(run: string): Option<Reason> {
    if |run| < MIN_RUN_LENGTH then None
    else
      var alphabet := AlphabetOf(run);
      if alphabet.None? then None
      else if !((exists c :: c in run && IsLetter(c)) && (exists c :: c in run && IsDecimal(c))) then None
      else if 5 * |CharsOf(run)| < 3 * Min(|run|, alphabet.value.Size()) then None
      else Some(DenseRun(|run|, alphabet.value))
  }

  function FirstDense(runs: seq<string>): Option<Reason> {
    if runs == [] then None
    else
      var reason := EntropyReason(Trim(runs[0], IsTrim));
      if reason.Some? then reason else FirstDense(runs[1..])
  }

  function LooksLikeACredential(u: Unicode, text: string): Option<Reason> {
    var known := FirstMatch(PATTERNS, text);
    if known.Some? then known else FirstDense(Runs(text, u.NotSpace))
  }

  function RefuseIfCredential(u: Unicode, text: string): Result<(), Error> {
    if LooksLikeACredential(u, text).Some? then Failure(CredentialRefused) else Success(())
  }

  // ---- what is always refused -------------------------------------------------------------

  lemma {:induction false} DenseRunFound(runs: seq<string>, run: string)
    requires run in runs && EntropyReason(Trim(run, IsTrim)).Some?
    ensures FirstDense(runs).Some?
  {
    if EntropyReason(Trim(runs[0], IsTrim)).None? {
      DenseRunFound(runs[1..], run);
    }
  }

  lemma {:induction false} TrimRightWrapped(s: string, tail: string, p: char -> bool)
    requires s == "" || !p(s[|s| - 1])
    requires forall c :: c in tail ==> p(c)
    ensures TrimRight(s + tail, p) == s
  {
    if tail == "" {
      assert s + tail == s;
    } else {
      var all := s + tail;
      assert all[|all| - 1] == tail[|tail| - 1];
      assert all[..|all| - 1] == s + tail[..|tail| - 1];
      TrimRightWrapped(s, tail[..|tail| - 1], p);
    }
  }

  lemma TrimWrapped(lead: string, s: string, tail: string, p: char -> bool)
    requires s != "" && !p(s[0]) && !p(s[|s| - 1])
    requires (forall c :: c in lead ==> p(c)) && (forall c :: c in tail ==> p(c))
    ensures Trim(lead + (s + tail), p) == s
  {
    SpanOfAll(lead, s + tail, p);
    assert (lead + (s + tail))[|lead|..] == s + tail;
    TrimRightWrapped(s, tail, p);
  }

  /** A text a word may follow: it is empty or ends with a space. */
  predicate Opens(u: Unicode, before: string) {
    before == "" || u.isSpace(before[|before| - 1])
  }

  predicate Closes(u: Unicode, after: string) {
    after == "" || u.isSpace(after[0])
  }

  lemma RunsOpened(u: Unicode, before: string, tail: string)
    requires Opens(u, before)
    ensures Runs(before + tail, u.NotSpace) == Runs(before, u.NotSpace) + Runs(tail, u.NotSpace)
  {
    if before == "" {
      assert before + tail == tail;
    } else {
      var n := |before| - 1;
      var front, gap := before[..n], [before[n]];
      RunsSplit(front, before[n], tail, u.NotSpace);
      RunsBeforeGap(front, gap, u.NotSpace);
      assert before == front + gap;
    }
  }

  lemma RunsClosed(u: Unicode, run: string, after: string)
    requires Closes(u, after) && run != "" && forall c :: c in run ==> u.NotSpace(c)
    ensures Runs(run + after, u.NotSpace) == [run] + Runs(after, u.NotSpace)
  {
    RunsOfOne(run, u.NotSpace);
    if after == "" {
      assert run + after == run;
    } else {
      RunsSplit(run, after[0], after[1..], u.NotSpace);
      assert run + after == run + [after[0]] + after[1..];
    }
  }

  /** A word set off by spaces is a run of its own. */
  lemma RunsAroundWord(u: Unicode, before: string, run: string, after: string)
    requires Opens(u, before) && Closes(u, after) && run != "" && forall c :: c in run ==> u.NotSpace(c)
    ensures Runs(before + (run + after), u.NotSpace) == Runs(before, u.NotSpace) + ([run] + Runs(after, u.NotSpace))
  {
    RunsOpened(u, before, run + after);
    RunsClosed(u, run, after);
  }

  lemma DenseChars(u: Unicode, key: string)
    requires u.Facts() && EntropyReason(key).Some?
    ensures forall c :: c in key ==> !IsTrim(c) && u.NotSpace(c)
  {
    forall c | c in key ensures !IsTrim(c) && u.NotSpace(c) {
      AlphabetChars(key, c);
    }
  }

  lemma AlphabetChars(key: string, c: char)
    requires AlphabetOf(key).Some? && c in key
    ensures IsBase64Url(c) && !IsTrim(c) && '!' <= c <= '~'
  {
    assert IsHex(c) || IsBase64Url(c);
  }

  /** Key material is refused wherever it stands: inside any text, with any of the trimmed
      punctuation stuck to it on either side. */
  lemma JudgedDenseIsRefused(u: Unicode, before: string, lead: string, key: string, tail: string, after: string)
    requires u.Facts() && EntropyReason(key).Some?
    requires (forall c :: c in lead ==> IsTrim(c)) && (forall c :: c in tail ==> IsTrim(c))
    requires Opens(u, before) && Closes(u, after)
    ensures LooksLikeACredential(u, before + (lead + (key + tail) + after)).Some?
  {
    var run := lead + (key + tail);
    DenseChars(u, key);
    assert key[0] in key && key[|key| - 1] in key;
    TrimWrapped(lead, key, tail, IsTrim);
    WrappedHasNoSpace(u, lead, key, tail);
    RunsAroundWord(u, before, run, after);
    assert before + (run + after) == before + (lead + (key + tail) + after);
    DenseRunFound(Runs(before + (run + after), u.NotSpace), run);
  }

  lemma WrappedHasNoSpace(u: Unicode, lead: string, key: string, tail: string)
    requires u.Facts() && forall c :: c in key ==> u.NotSpace(c)
    requires (forall c :: c in lead ==> IsTrim(c)) && (forall c :: c in tail ==> IsTrim(c))
    ensures forall c :: c in lead + (key + tail) ==> u.NotSpace(c)
  {
    assert forall c :: IsTrim(c) ==> '!' <= c <= '~';
  }

  // ---- what never is ------------------------------------------------------------------------

  /** The characters of UUIDs and of this service's ids: lower-case hex, the separators, and
      the letters of the prefixes. */
  predicate IsIdChar(c: char) {
    IsLowerHex(c) || c == '-' || c == '_' || c == 'n' || c == 'o' || c == 't' || c == 'l' || c == 'p' || c == 'r'
      || c == 'v'
  }

  predicate IsLowerHex(c: char) {
    '0' <= c <= '9' || 'a' <= c <= 'f'
  }

  lemma {:induction false} AtMostAsManyChars(s: string)
    ensures |CharsOf(s)| <= |s|
  {
    if s != "" {
      AtMostAsManyChars(s[1..]);
      assert CharsOf(s) == {s[0]} + CharsOf(s[1..]);
    }
  }

  lemma NotPrefixInIds(text: string, prefix: string, k: nat, i: nat)
    requires forall c :: c in text ==> IsIdChar(c)
    requires k < |prefix| && !IsIdChar(prefix[k]) && i <= |text|
    ensures !(prefix <= text[i..])
  {
    if k < |text| - i { assert text[i..][k] in text; }
  }

  /** Somewhere in what the pattern has to find literally is a character no id holds. */
  predicate ForeignToIds(p: Pattern) {
    p.Prefixed? ==> p.prefix != "" && !IsIdChar(p.prefix[0])
  }

  lemma IdsMatchNoPattern(p: Pattern, text: string)
    requires ForeignToIds(p) && forall c :: c in text ==> IsIdChar(c)
    ensures !Matches(p, text)
  {
    forall i | 0 <= i <= |text| ensures !MatchesAt(p, text, i) {
      match p
      case Prefixed(prefix, _, _, _) => NotPrefixInIds(text, prefix, 0, i);
      case PemBlock => NotPrefixInIds(text, PEM_OPENING, 5, i);
      case Jwt => NotPrefixInIds(text, JWT_OPENING, 1, i);
    }
  }

  lemma {:induction false} IdsMatchNone(patterns: seq<Pattern>, text: string)
    requires (forall i :: 0 <= i < |patterns| ==> ForeignToIds(patterns[i])) && forall c :: c in text ==> IsIdChar(c)
    ensures FirstMatch(patterns, text) == None
  {
    if patterns != [] {
      IdsMatchNoPattern(patterns[0], text);
      IdsMatchNone(patterns[1..], text);
    }
  }

  lemma IdsHaveNoKnownShape(text: string)
    requires forall c :: c in text ==> IsIdChar(c)
    ensures FirstMatch(PATTERNS, text) == None
  {
    assert forall i :: 0 <= i < |PATTERNS| ==> ForeignToIds(PATTERNS[i]);
    IdsMatchNone(PATTERNS, text);
  }

  /** A run over few enough characters, one of them no hex digit, is never dense. */
  lemma FewCharsAreNotDense(run: string, chars: string, mark: char)
    requires mark in run && !IsHex(mark) && CharsOf(run) <= CharsOf(chars)
    requires 5 * |chars| < 3 * Min(|run|, 64)
    ensures EntropyReason(run) == None
  {
    AtMostAsManyChars(chars);
    SubsetIsNoLarger(CharsOf(run), CharsOf(chars));
  }

  lemma OneRun(u: Unicode, id: string)
    requires u.Facts() && id != "" && forall c :: c in id ==> IsIdChar(c)
    ensures Runs(id, u.NotSpace) == [id] && Trim(id, IsTrim) == id
  {
    RunsOfOne(id, u.NotSpace);
    IdIsTrimmed(id);
  }

  lemma IdIsTrimmed(id: string)
    requires id != "" && forall c :: c in id ==> IsIdChar(c)
    ensures Trim(id, IsTrim) == id
  {
    assert id[0] in id && id[|id| - 1] in id;
    TrimWrapped("", id, "", IsTrim);
    assert "" + (id + "") == id;
  }

  const HEX_LOWER := "0123456789abcdef"

  lemma HexIsListed(c: char)
    requires IsLowerHex(c)
    ensures c in HEX_LOWER
  {
    if c <= '9' {
      assert HEX_LOWER[c as int - '0' as int] == c;
    } else {
      assert HEX_LOWER[c as int - 'a' as int + 10] == c;
    }
  }

  lemma CharsAreListed(s: string, own: string)
    requires forall i :: 0 <= i < |s| ==> IsLowerHex(s[i]) || s[i] in own
    ensures CharsOf(s) <= CharsOf(HEX_LOWER + own)
  {
    forall c | c in CharsOf(s) ensures c in CharsOf(HEX_LOWER + own) {
      if IsLowerHex(c) { HexIsListed(c); }
    }
  }

  /** Section 4 of RFC 9562, in lower case. */
  predicate IsUuid(s: string) {
    |s| == 36 && forall i :: 0 <= i < 36 ==>
      if i == 8 || i == 13 || i == 18 || i == 23 then s[i] == '-' else IsLowerHex(s[i])
  }

  /** An id this service mints: a prefix and the 32 hex digits of a UUID. */
  predicate IsMintedId(s: string) {
    exists p :: p in ["note_", "fld_", "per_", "evt_"] && IsPrefixedHex(p, s)
  }

  predicate IsPrefixedHex(p: string, s: string) {
    p <= s && |s| == |p| + 32 && forall i :: |p| <= i < |s| ==> IsLowerHex(s[i])
  }

  predicate IsIdentifier(s: string) {
    IsUuid(s) || IsMintedId(s)
  }

  lemma UuidChars(s: string)
    requires IsUuid(s)
    ensures (forall c :: c in s ==> IsIdChar(c)) && s[8] == '-' && CharsOf(s) <= CharsOf(HEX_LOWER + "-")
  {
    CharsAreListed(s, "-");
  }

  /** The characters of a prefix that are no hex digits. */
  function PrefixOwn(p: string): string {
    if p == "note_" then "not_" else if p == "fld_" then "l_" else if p == "per_" then "pr_" else "vt_"
  }

  lemma MintedIdChars(p: string, s: string)
    requires p in ["note_", "fld_", "per_", "evt_"] && IsPrefixedHex(p, s)
    ensures (forall c :: c in s ==> IsIdChar(c)) && s[|p| - 1] == '_' && CharsOf(s) <= CharsOf(HEX_LOWER + PrefixOwn(p))
  {
    forall i | 0 <= i < |p| ensures (IsLowerHex(p[i]) || p[i] in PrefixOwn(p)) && IsIdChar(p[i]) {
      PrefixChars(p, i);
    }
    assert forall i :: 0 <= i < |p| ==> s[i] == p[i];
    CharsAreListed(s, PrefixOwn(p));
  }

  /** Identifiers are made of id characters, one of them a separator. */
  lemma IdentifierChars(s: string)
    requires IsIdentifier(s)
    ensures (forall c :: c in s ==> IsIdChar(c)) && exists i :: 0 <= i < |s| && (s[i] == '-' || s[i] == '_')
  {
    if IsUuid(s) {
      UuidChars(s);
    } else {
      var p :| p in ["note_", "fld_", "per_", "evt_"] && IsPrefixedHex(p, s);
      MintedIdChars(p, s);
      assert s[|p| - 1] == '_';
    }
  }

  /** And of too few different ones to be dense. */
  lemma IdentifierIsNotDense(s: string)
    requires IsIdentifier(s)
    ensures EntropyReason(s) == None
  {
    if IsUuid(s) {
      UuidChars(s);
      FewCharsAreNotDense(s, HEX_LOWER + "-", '-');
    } else {
      var p :| p in ["note_", "fld_", "per_", "evt_"] && IsPrefixedHex(p, s);
      MintedIdChars(p, s);
      FewCharsAreNotDense(s, HEX_LOWER + PrefixOwn(p), '_');
    }
  }

  lemma PrefixChars(p: string, i: nat)
    requires p in ["note_", "fld_", "per_", "evt_"] && i < |p|
    ensures IsIdChar(p[i])
    ensures IsLowerHex(p[i]) || p[i] in PrefixOwn(p)
  {
    assert "not_"[0] == 'n' && "not_"[1] == 'o' && "not_"[2] == 't' && "not_"[3] == '_';
    assert "l_"[0] == 'l' && "l_"[1] == '_' && "vt_"[0] == 'v' && "vt_"[1] == 't' && "vt_"[2] == '_';
    assert "pr_"[0] == 'p' && "pr_"[1] == 'r' && "pr_"[2] == '_';
  }
}
