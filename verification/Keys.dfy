/** Folding a caller's key onto the one form that is stored, and selecting keys by prefix. */
module Keys {
  import opened Wrappers
  import opened Text
  import opened Tables

  const MAX_KEY_LENGTH := 64

  predicate IsUnderscore(c: char) {
    c == '_'
  }

  /** re.sub of one-class runs. */
  function SubRuns(s: string, p: char -> bool, r: string): string
    decreases |s|
  {
    if s == "" then ""
    else if p(s[0]) then r + SubRuns(s[Span(s, p)..], p, r)
    else [s[0]] + SubRuns(s[1..], p, r)
  }

  /** Snake case, starting with a letter. */
  predicate IsKey(s: string) {
    s != "" && 'a' <= s[0] <= 'z' && forall c :: c in s ==> IsSnake(c)
  }

  /** The passes, in the order they are made. */
  function Fold(u: Unicode, raw: string): string {
    var folded := SubRuns(u.LowerAll(Trim(raw, u.isSpace)), u.SpaceOrHyphen, "_");
    Trim(SubRuns(folded, IsUnderscore, "_"), IsUnderscore)
  }

  function NormalizeKey(u: Unicode, raw: string): Result<string, Error> {
    var candidate := Fold(u, raw);
    if candidate == "" || |candidate| > MAX_KEY_LENGTH || !IsKey(candidate) then Failure(InvalidFieldKey)
    else Success(candidate)
  }

  // ---- the passes together are one cut and one join -----------------------------------

  lemma {:induction false} SubAfter(w: string, s: string, p: char -> bool, r: string)
    requires forall c :: c in w ==> !p(c)
    ensures SubRuns(w + s, p, r) == w + SubRuns(s, p, r)
  {
    if w == "" {
      assert w + s == s;
    } else {
      assert (w + s)[1..] == w[1..] + s;
      SubAfter(w[1..], s, p, r);
    }
  }

  lemma {:induction false} SubKeepsWords(u: Unicode, s: string, p: char -> bool)
    requires forall c :: p(c) ==> u.Separator(c)
    ensures Runs(SubRuns(s, p, "_"), u.KeyChar) == Runs(s, u.KeyChar)
    decreases |s|
  {
    var n := Span(s, u.KeyChar);
    var w, tail := s[..n], s[n..];
    assert s == w + tail;
    SubAfter(w, tail, p, "_");
    if tail == "" {
      assert w + "" == w;
    } else {
      SubKeepsWords(u, tail[(if p(tail[0]) then Span(tail, p) else 1)..], p);
      SubKeepsWordsAfter(u, w, tail, p);
    }
  }

  lemma SubKeepsWordsAfter(u: Unicode, w: string, tail: string, p: char -> bool)
    requires tail != "" && u.Separator(tail[0]) && forall c :: p(c) ==> u.Separator(c)
    requires var rest := tail[(if p(tail[0]) then Span(tail, p) else 1)..];
             Runs(SubRuns(rest, p, "_"), u.KeyChar) == Runs(rest, u.KeyChar)
    ensures Runs(w + SubRuns(tail, p, "_"), u.KeyChar) == Runs(w + tail, u.KeyChar)
  {
    var m := if p(tail[0]) then Span(tail, p) else 1;
    var gap, rest := tail[..m], tail[m..];
    var sub := if p(tail[0]) then '_' else tail[0];
    var subbed := SubRuns(rest, p, "_");
    assert SubRuns(tail, p, "_") == [sub] + subbed;
    assert forall c :: c in gap ==> u.Separator(c);
    OneSeparatorForAnother(u, w, sub, subbed, gap, rest);
    assert gap + rest == tail && w + ([sub] + subbed) == w + [sub] + subbed;
  }

  lemma OneSeparatorForAnother(u: Unicode, w: string, c: char, a: string, gap: string, b: string)
    requires u.Separator(c) && gap != "" && (forall x :: x in gap ==> u.Separator(x))
    requires Runs(a, u.KeyChar) == Runs(b, u.KeyChar)
    ensures Runs(w + [c] + a, u.KeyChar) == Runs(w + (gap + b), u.KeyChar)
  {
    RunsSplit(w, c, a, u.KeyChar);
    GapSplits(u, w, gap, b);
  }

  lemma GapSplits(u: Unicode, w: string, gap: string, rest: string)
    requires gap != "" && forall c :: c in gap ==> u.Separator(c)
    ensures Runs(w + (gap + rest), u.KeyChar) == Runs(w, u.KeyChar) + Runs(rest, u.KeyChar)
  {
    assert w + (gap + rest) == w + [gap[0]] + (gap[1..] + rest);
    RunsSplit(w, gap[0], gap[1..] + rest, u.KeyChar);
    RunsAfterGap(gap[1..], rest, u.KeyChar);
  }

  lemma TrimKeepsWords(u: Unicode, s: string, p: char -> bool)
    requires forall c :: p(c) ==> u.Separator(c)
    ensures Runs(Trim(s, p), u.KeyChar) == Runs(s, u.KeyChar)
  {
    var left := TrimLeft(s, p);
    SplitAt(s, Span(s, p));
    RunsAfterGap(s[..Span(s, p)], left, u.KeyChar);
    TrimRightKeepsWords(u, left, p);
  }

  lemma TrimRightKeepsWords(u: Unicode, s: string, p: char -> bool)
    requires forall c :: p(c) ==> u.Separator(c)
    ensures Runs(TrimRight(s, p), u.KeyChar) == Runs(s, u.KeyChar)
  {
    var t := TrimRight(s, p);
    SplitAt(s, |t|);
    assert t == s[..|t|];
    forall c | c in s[|t|..] ensures !u.KeyChar(c) {
      var i :| |t| <= i < |s| && s[i] == c;
    }
    RunsBeforeGap(t, s[|t|..], u.KeyChar);
  }

  lemma SplitAt(s: string, n: nat)
    requires n <= |s|
    ensures s[..n] + s[n..] == s
  {
  }

  lemma {:induction false} LowerOfConcat(u: Unicode, a: string, b: string)
    ensures u.LowerAll(a + b) == u.LowerAll(a) + u.LowerAll(b)
  {
    if a == "" {
      assert a + b == b;
    } else {
      assert (a + b)[1..] == a[1..] + b;
      LowerOfConcat(u, a[1..], b);
    }
  }

  lemma {:induction false} LowerOfSame(u: Unicode, s: string)
    requires forall c :: c in s ==> u.lower(c) == [c]
    ensures u.LowerAll(s) == s
  {
    if s != "" { LowerOfSame(u, s[1..]); }
  }

  /** Trimming before lowering makes no difference to the words. */
  lemma TrimmedLowerWords(u: Unicode, raw: string)
    requires u.Facts()
    ensures Runs(u.LowerAll(Trim(raw, u.isSpace)), u.KeyChar) == Runs(u.LowerAll(raw), u.KeyChar)
  {
    var left := TrimLeft(raw, u.isSpace);
    var gap := raw[..Span(raw, u.isSpace)];
    var t := TrimRight(left, u.isSpace);
    var tail := left[|t|..];
    assert raw == gap + left && left == t + tail;
    LowerOfConcat(u, gap, left);
    LowerOfSame(u, gap);
    RunsAfterGap(gap, u.LowerAll(left), u.KeyChar);
    LowerOfConcat(u, t, tail);
    LowerOfSame(u, tail);
    RunsBeforeGap(u.LowerAll(t), tail, u.KeyChar);
  }

  /** No separator but single underscores, and none at either end. */
  ghost predicate Neat(u: Unicode, s: string) {
    forall i {:trigger s[i]} :: 0 <= i < |s| && u.Separator(s[i]) ==>
      s[i] == '_' && 0 < i < |s| - 1 && !u.Separator(s[i + 1])
  }

  lemma {:induction false} NeatIsJoined(u: Unicode, s: string)
    requires Neat(u, s)
    ensures s == Join(Runs(s, u.KeyChar), "_")
    decreases |s|
  {
    var n := Span(s, u.KeyChar);
    var w := s[..n];
    if s == "" {
    } else if n == |s| {
      assert w == s;
      RunsOfOne(s, u.KeyChar);
    } else {
      var t := s[n + 1..];
      assert s == w + [s[n]] + t;
      RunsSplit(w, s[n], t, u.KeyChar);
      RunsOfOne(w, u.KeyChar);
      assert forall i {:trigger t[i]} :: 0 <= i < |t| ==> t[i] == s[n + 1 + i];
      assert t[0] == s[n + 1];
      forall i {:trigger t[i]} | 0 <= i < |t| && u.Separator(t[i])
        ensures t[i] == '_' && 0 < i < |t| - 1 && !u.Separator(t[i + 1])
      {
        assert t[i] == s[n + 1 + i];
        assert t[i + 1] == s[n + 1 + i + 1];
      }
      NeatIsJoined(u, t);
    }
  }

  lemma {:induction false} SubChars(s: string, p: char -> bool, q: char -> bool)
    requires q('_') && forall c :: c in s && !p(c) ==> q(c)
    ensures forall c :: c in SubRuns(s, p, "_") ==> q(c)
    decreases |s|
  {
    if s != "" {
      if p(s[0]) { SubChars(s[Span(s, p)..], p, q); } else { SubChars(s[1..], p, q); }
    }
  }

  lemma {:induction false} NoDoubleUnderscore(s: string)
    ensures var t := SubRuns(s, IsUnderscore, "_");
            && (s != "" ==> t != "" && t[0] == s[0])
            && (forall i {:trigger t[i]} :: 0 <= i < |t| - 1 && t[i] == '_' ==> t[i + 1] != '_')
    decreases |s|
  {
    if s != "" {
      if IsUnderscore(s[0]) {
        var n := Span(s, IsUnderscore);
        NoDoubleUnderscore(s[n..]);
        assert n < |s| ==> s[n..][0] == s[n];
      } else {
        NoDoubleUnderscore(s[1..]);
      }
    }
  }

  predicate NotSpaceOrHyphen(u: Unicode, c: char) {
    !u.SpaceOrHyphen(c)
  }

  /** What the two substitutions leave: single underscores and no other separator. */
  ghost predicate Single(u: Unicode, s: string) {
    && (forall c :: c in s ==> !u.SpaceOrHyphen(c))
    && (forall i {:trigger s[i]} :: 0 <= i < |s| - 1 && s[i] == '_' ==> s[i + 1] != '_')
  }

  lemma SubstitutedIsSingle(u: Unicode, s: string)
    requires u.Facts()
    ensures Single(u, SubRuns(SubRuns(s, u.SpaceOrHyphen, "_"), IsUnderscore, "_"))
  {
    var p := c => NotSpaceOrHyphen(u, c);
    var folded := SubRuns(s, u.SpaceOrHyphen, "_");
    SubChars(s, u.SpaceOrHyphen, p);
    SubChars(folded, IsUnderscore, p);
    NoDoubleUnderscore(folded);
    assert forall c :: c in SubRuns(folded, IsUnderscore, "_") ==> p(c);
  }

  lemma TrimmedIsNeat(u: Unicode, single: string)
    requires Single(u, single)
    ensures Neat(u, Trim(single, IsUnderscore))
  {
    var left := TrimLeft(single, IsUnderscore);
    var n := Span(single, IsUnderscore);
    var s := TrimRight(left, IsUnderscore);
    assert forall i {:trigger s[i]} :: 0 <= i < |s| ==> s[i] == single[n + i] && s[i] in single;
    forall i {:trigger s[i]} | 0 <= i < |s| && u.Separator(s[i])
      ensures s[i] == '_' && 0 < i < |s| - 1 && !u.Separator(s[i + 1])
    {
      assert s[i] == single[n + i] && s[i] in single;
      assert i != |s| - 1;
      assert s[i + 1] == single[n + i + 1] && s[i + 1] in single;
    }
  }

  lemma FoldIsNeat(u: Unicode, raw: string)
    requires u.Facts()
    ensures Neat(u, Fold(u, raw))
  {
    var lowered := u.LowerAll(Trim(raw, u.isSpace));
    SubstitutedIsSingle(u, lowered);
    TrimmedIsNeat(u, SubRuns(SubRuns(lowered, u.SpaceOrHyphen, "_"), IsUnderscore, "_"));
  }

  /** All the passes come to: lowercase, split on runs of whitespace, hyphen and underscore,
      join with one underscore. */
  lemma FoldIsCutAndJoin(u: Unicode, raw: string)
    requires u.Facts()
    ensures Fold(u, raw) == Join(Runs(u.LowerAll(raw), u.KeyChar), "_")
    ensures AllWords(Runs(u.LowerAll(raw), u.KeyChar), u.KeyChar)
  {
    var lowered := u.LowerAll(Trim(raw, u.isSpace));
    var folded := SubRuns(lowered, u.SpaceOrHyphen, "_");
    FoldIsNeat(u, raw);
    NeatIsJoined(u, Fold(u, raw));
    TrimKeepsWords(u, SubRuns(folded, IsUnderscore, "_"), IsUnderscore);
    SubKeepsWords(u, folded, IsUnderscore);
    SubKeepsWords(u, lowered, u.SpaceOrHyphen);
    TrimmedLowerWords(u, raw);
  }

  /** Lower-casing goes character by character. */
  lemma {:induction false} LoweredAt(u: Unicode, s: string, i: nat)
    requires i < |s|
    ensures u.LowerAll(s) == u.LowerAll(s[..i]) + u.lower(s[i]) + u.LowerAll(s[i + 1..])
  {
    LowerOfConcat(u, s[..i], s[i..]);
    assert s[..i] + s[i..] == s && s[i..][1..] == s[i + 1..];
  }

  // ---- what the results are ---------------------------------------------------------------

  /** A key of the grammar with no doubled or trailing underscore, within the length limit. */
  predicate IsStoredKey(s: string) {
    IsKey(s) && |s| <= MAX_KEY_LENGTH && s[|s| - 1] != '_'
    && forall i {:trigger s[i]} :: 0 <= i < |s| - 1 && s[i] == '_' ==> s[i + 1] != '_'
  }

  lemma KeyCharFacts(u: Unicode, s: string)
    requires u.Facts() && IsKey(s)
    ensures forall c :: c in s ==> u.lower(c) == [c] && (u.Separator(c) <==> c == '_')
  {
    assert forall c :: c in s ==> IsSnake(c);
  }

  /** Normalising changes nothing exactly for the keys that are stored, and everything it
      returns is one of them; so it is idempotent. */
  lemma NormalizedKeysAreStoredKeys(u: Unicode, raw: string)
    requires u.Facts()
    ensures NormalizeKey(u, raw) == Success(raw) <==> IsStoredKey(raw)
    ensures NormalizeKey(u, raw).Success? ==> IsStoredKey(NormalizeKey(u, raw).value)
    ensures NormalizeKey(u, raw).Success? ==>
      NormalizeKey(u, NormalizeKey(u, raw).value) == NormalizeKey(u, raw)
  {
    if NormalizeKey(u, raw).Success? {
      var k := NormalizeKey(u, raw).value;
      FoldIsNeat(u, raw);
      NeatKeyIsStored(u, k);
      StoredKeyIsFixed(u, k);
    }
    if IsStoredKey(raw) { StoredKeyIsFixed(u, raw); }
  }

  /** A key is accepted exactly if what the cut and join leave starts with a small letter, goes on
      in small letters, digits and underscores, and is no longer than 64; that is what is stored. */
  lemma KeyIsAcceptedExactly(u: Unicode, raw: string)
    requires u.Facts()
    ensures var key := Join(Runs(u.LowerAll(raw), c => !u.isSpace(c) && c != '-' && c != '_'), "_");
            NormalizeKey(u, raw) ==
            if 1 <= |key| <= 64 && 'a' <= key[0] <= 'z'
               && forall c :: c in key ==> 'a' <= c <= 'z' || '0' <= c <= '9' || c == '_'
            then Success(key) else Failure(InvalidFieldKey)
  {
    FoldIsCutAndJoin(u, raw);
    SameRuns(u.LowerAll(raw), u.KeyChar, c => !u.isSpace(c) && c != '-' && c != '_');
  }

  lemma NeatKeyIsStored(u: Unicode, k: string)
    requires u.Facts() && IsKey(k) && |k| <= MAX_KEY_LENGTH && Neat(u, k)
    ensures IsStoredKey(k)
  {
    KeyCharFacts(u, k);
    forall i {:trigger k[i]} | 0 <= i < |k| && k[i] == '_'
      ensures 0 < i < |k| - 1 && k[i + 1] != '_'
    {
      assert u.Separator(k[i]);
    }
  }

  lemma StoredKeyIsFixed(u: Unicode, k: string)
    requires u.Facts() && IsStoredKey(k)
    ensures NormalizeKey(u, k) == Success(k)
  {
    KeyCharFacts(u, k);
    LowerOfSame(u, k);
    forall i {:trigger k[i]} | 0 <= i < |k| && u.Separator(k[i])
      ensures k[i] == '_' && 0 < i < |k| - 1 && !u.Separator(k[i + 1])
    {
      assert k[i] in k;
      if i < |k| - 1 { assert k[i + 1] in k; }
    }
    NeatIsJoined(u, k);
    FoldIsCutAndJoin(u, k);
  }

  // ---- the prefix filter --------------------------------------------------------------------

  const LAST: char := '\U{FFFF}'

  /** `key >= prefix AND key < prefix || U+FFFF` */
  predicate InPrefixRange(key: string, prefix: string) {
    AtMost(prefix, key) && Less(key, prefix + [LAST])
  }

  /** The prefix a filter asks for, as the query uses it. */
  function FilterPrefix(u: Unicode, raw: string): Result<string, Error> {
    if Trim(raw, u.isSpace) == "" then Success("") else NormalizeKey(u, raw)
  }

  lemma {:induction false} RangeIsPrefix(key: string, prefix: string)
    requires forall i :: 0 <= i < |key| ==> key[i] < LAST
    ensures InPrefixRange(key, prefix) <==> prefix <= key
  {
    if prefix == "" {
      assert "" + [LAST] == [LAST];
      assert prefix <= key;
    } else if key != "" {
      assert (prefix + [LAST])[1..] == prefix[1..] + [LAST];
      if key[0] == prefix[0] {
        RangeIsPrefix(key[1..], prefix[1..]);
        assert prefix <= key <==> prefix[1..] <= key[1..];
        assert prefix == key <==> prefix[1..] == key[1..];
      }
    }
  }

  /** The range selects exactly the stored keys that start with the normalised prefix.  A
      trailing underscore in what the caller typed is not part of that prefix. */
  lemma PrefixFilterSelects(u: Unicode, raw: string, key: string)
    requires u.Facts() && IsStoredKey(key) && FilterPrefix(u, raw).Success?
    ensures InPrefixRange(key, FilterPrefix(u, raw).value) <==> FilterPrefix(u, raw).value <= key
    ensures IsStoredKey(raw) && |raw| < MAX_KEY_LENGTH ==> FilterPrefix(u, raw + "_") == Success(raw)
  {
    assert forall i :: 0 <= i < |key| ==> key[i] in key && IsSnake(key[i]);
    RangeIsPrefix(key, FilterPrefix(u, raw).value);
    if IsStoredKey(raw) { TrailingUnderscore(u, raw); }
  }

  lemma TrailingUnderscore(u: Unicode, k: string)
    requires u.Facts() && IsStoredKey(k)
    ensures FilterPrefix(u, k + "_") == Success(k)
  {
    var raw := k + "_";
    FoldWithTrailingUnderscore(u, k);
    StoredKeyIsFixed(u, k);
    KeyCharFacts(u, k);
    assert raw[0] == k[0] && k[0] in k && !u.isSpace(raw[0]);
    assert raw[|raw| - 1] == '_';
  }

  lemma FoldWithTrailingUnderscore(u: Unicode, k: string)
    requires u.Facts() && IsStoredKey(k)
    ensures Fold(u, k + "_") == Fold(u, k)
  {
    KeysAreLower(u, k);
    FoldIsCutAndJoin(u, k + "_");
    FoldIsCutAndJoin(u, k);
    RunsBeforeGap(k, "_", u.KeyChar);
  }

  lemma KeysAreLower(u: Unicode, k: string)
    requires u.Facts() && IsStoredKey(k)
    ensures u.LowerAll(k + "_") == k + "_" && u.LowerAll(k) == k
  {
    KeyCharFacts(u, k);
    LowerOfSame(u, k + "_");
    LowerOfSame(u, k);
  }
}
