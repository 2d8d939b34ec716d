/** Strings as the service cuts them up: maximal runs, trimming, joining, ordering. */
module Text {

  /** What is taken from the Unicode tables and from the index's stemmer. */
  datatype Unicode = Unicode(isSpace: char -> bool, isWord: char -> bool, lower: char -> string, stem: string -> string)
  {
    /** The few facts about them the service relies on. */
    ghost predicate Facts() {
      && isSpace(' ')
      && (forall c :: '!' <= c <= '~' ==> !isSpace(c))
      && (forall c :: IsSnake(c) ==> lower(c) == [c])
      && (forall c :: isSpace(c) ==> !isWord(c) && lower(c) == [c])
      && !isWord('"') && !isWord('_')
    }

    /** What separates the words of a field key. */
    predicate Separator(c: char) {
      isSpace(c) || c == '-' || c == '_'
    }

    predicate KeyChar(c: char) {
      !Separator(c)
    }

    predicate SpaceOrHyphen(c: char) {
      isSpace(c) || c == '-'
    }

    predicate NotSpace(c: char) {
      !isSpace(c)
    }

    function LowerAll(s: string): string {
      if s == "" then "" else lower(s[0]) + LowerAll(s[1..])
    }
  }

  predicate IsSnake(c: char) {
    'a' <= c <= 'z' || '0' <= c <= '9' || c == '_'
  }

  /** How many characters at the start of `s` satisfy `p`. */
  function Span(s: string, p: char -> bool): (n: nat)
    ensures n <= |s|
    ensures forall i :: 0 <= i < n ==> p(s[i])
    ensures n < |s| ==> !p(s[n])
  {
    if s == "" || !p(s[0]) then 0 else 1 + Span(s[1..], p)
  }

  /** The maximal runs of characters satisfying `p`, in order: what findall of a
      one-class pattern with a `+` returns. */
  function Runs(s: string, p: char -> bool): (r: seq<string>)
    ensures AllWords(r, p)
    decreases |s|
  {
    if s == "" then []
    else if !p(s[0]) then Runs(s[1..], p)
    else
      var n := Span(s, p);
      [s[..n]] + Runs(s[n..], p)
  }

  function TrimLeft(s: string, p: char -> bool): string {
    s[Span(s, p)..]
  }

  function TrimRight(s: string, p: char -> bool): (r: string)
    ensures r <= s
    ensures forall i :: |r| <= i < |s| ==> p(s[i])
    ensures r != "" ==> !p(r[|r| - 1])
  {
    if s != "" && p(s[|s| - 1]) then TrimRight(s[..|s| - 1], p) else s
  }

  /** str.strip */
  function Trim(s: string, p: char -> bool): string {
    TrimRight(TrimLeft(s, p), p)
  }

  /** str.join */
  function Join(words: seq<string>, separator: string): string {
    if words == [] then ""
    else if |words| == 1 then words[0]
    else words[0] + separator + Join(words[1..], separator)
  }

  /** Code-point order, as SQLite's BINARY collation and Python's str compare. */
  predicate Less(a: string, b: string) {
    b != "" && (a == "" || a[0] < b[0] || (a[0] == b[0] && Less(a[1..], b[1..])))
  }

  predicate AtMost(a: string, b: string) {
    a == b || Less(a, b)
  }

  ghost predicate AllWords(words: seq<string>, p: char -> bool) {
    forall i :: 0 <= i < |words| ==> words[i] != "" && All(words[i], p)
  }

  ghost predicate All(s: string, p: char -> bool) {
    forall c :: c in s ==> p(c)
  }

  // ---- trimming -------------------------------------------------------------------------

  /** What is left of `s` between a margin on either side: nothing, or a text that neither starts
      nor ends with a character of the class. */
  ghost predicate IsCore(s: string, p: char -> bool, core: string) {
    exists a, b :: IsMargin(s, p, a, b) && s[a..b] == core
  }

  ghost predicate IsMargin(s: string, p: char -> bool, a: int, b: int) {
    && 0 <= a <= b <= |s| && (forall i :: 0 <= i < a || b <= i < |s| ==> p(s[i]))
    && (a < b ==> !p(s[a]) && !p(s[b - 1]))
  }

  /** There is one such core, and trimming gives it. */
  lemma TrimIsCore(s: string, p: char -> bool, core: string)
    ensures IsCore(s, p, core) <==> core == Trim(s, p)
  {
    var a, b := TrimHasMargin(s, p);
    if c, d :| IsMargin(s, p, c, d) && s[c..d] == core {
      OneMargin(s, p, a, b, c, d);
    }
  }

  lemma TrimHasMargin(s: string, p: char -> bool) returns (a: nat, b: nat)
    ensures IsMargin(s, p, a, b) && s[a..b] == Trim(s, p)
  {
    a := Span(s, p);
    var rest := s[a..];
    var core := TrimRight(rest, p);
    b := a + |core|;
    assert forall i :: a <= i < |s| ==> s[i] == rest[i - a];
    assert core == rest[..|core|];
    assert core != "" ==> core[0] == rest[0] == s[a] && core[|core| - 1] == rest[|core| - 1] == s[b - 1];
  }

  lemma OneMargin(s: string, p: char -> bool, a: int, b: int, c: int, d: int)
    requires IsMargin(s, p, a, b) && IsMargin(s, p, c, d)
    ensures s[a..b] == s[c..d]
  {
    MarginHolds(s, p, a, b, c, d);
    MarginHolds(s, p, c, d, a, b);
  }

  /** The inner of two margins lies within the outer. */
  lemma MarginHolds(s: string, p: char -> bool, a: int, b: int, c: int, d: int)
    requires IsMargin(s, p, a, b) && IsMargin(s, p, c, d)
    ensures a < b ==> c <= a && b <= d
  {
  }

  // ---- runs ---------------------------------------------------------------------------

  lemma {:induction false} SpanOfAll(s: string, rest: string, p: char -> bool)
    requires All(s, p) && (rest == "" || !p(rest[0]))
    ensures Span(s + rest, p) == |s|
  {
    if s == "" {
      assert s + rest == rest;
    } else {
      assert (s + rest)[1..] == s[1..] + rest;
      SpanOfAll(s[1..], rest, p);
    }
  }

  /** A character outside the class separates: the runs on its two sides are independent. */
  lemma {:induction false} RunsSplit(a: string, c: char, b: string, p: char -> bool)
    requires !p(c)
    ensures Runs(a + [c] + b, p) == Runs(a, p) + Runs(b, p)
    decreases |a|
  {
    var s := a + [c] + b;
    if a == "" {
      assert s[1..] == b;
    } else if !p(a[0]) {
      assert s[1..] == a[1..] + [c] + b;
      RunsSplit(a[1..], c, b, p);
    } else {
      var n := FirstRun(a, c, b, p);
      RunsSplit(a[n..], c, b, p);
      AfterFirstRun(s, n, a[n..] + [c] + b, p);
      AfterFirstRun(a, n, a[n..], p);
    }
  }

  lemma AfterFirstRun(s: string, n: nat, rest: string, p: char -> bool)
    requires s != "" && p(s[0]) && n == Span(s, p) && rest == s[n..]
    ensures Runs(s, p) == [s[..n]] + Runs(rest, p)
  {
  }

  lemma FirstRun(a: string, c: char, b: string, p: char -> bool) returns (n: nat)
    requires a != "" && p(a[0]) && !p(c)
    ensures 0 < n <= |a| && n == Span(a, p) == Span(a + [c] + b, p)
    ensures (a + [c] + b)[..n] == a[..n] && (a + [c] + b)[n..] == a[n..] + [c] + b
  {
    n := Span(a, p);
    var rest := a[n..] + [c] + b;
    assert a + [c] + b == a[..n] + rest;
    SpanOfAll(a[..n], rest, p);
  }

  lemma RunsOfOne(w: string, p: char -> bool)
    requires w != "" && All(w, p)
    ensures Runs(w, p) == [w]
  {
    SpanOfAll(w, "", p);
    assert w + "" == w;
    assert w[..|w|] == w && w[|w|..] == "";
  }

  lemma {:induction false} RunsOfNone(s: string, p: char -> bool)
    requires forall c :: c in s ==> !p(c)
    ensures Runs(s, p) == []
  {
    if s != "" {
      RunsOfNone(s[1..], p);
    }
  }

  /** Characters outside the class at the ends contribute no run. */
  lemma {:induction false} RunsAfterGap(gap: string, s: string, p: char -> bool)
    requires forall c :: c in gap ==> !p(c)
    ensures Runs(gap + s, p) == Runs(s, p)
  {
    if gap == "" {
      assert gap + s == s;
    } else {
      assert (gap + s)[1..] == gap[1..] + s;
      RunsAfterGap(gap[1..], s, p);
    }
  }

  lemma RunsBeforeGap(s: string, gap: string, p: char -> bool)
    requires forall c :: c in gap ==> !p(c)
    ensures Runs(s + gap, p) == Runs(s, p)
  {
    if gap == "" {
      assert s + gap == s;
    } else {
      assert s + gap == s + [gap[0]] + gap[1..];
      RunsSplit(s, gap[0], gap[1..], p);
      RunsOfNone(gap[1..], p);
    }
  }

  /** Two classes with the same characters make the same runs. */
  lemma {:induction false} SameRuns(s: string, p: char -> bool, q: char -> bool)
    requires forall c :: p(c) <==> q(c)
    ensures Runs(s, p) == Runs(s, q)
    decreases |s|
  {
    SameSpan(s, p, q);
    if s != "" {
      if p(s[0]) { SameRuns(s[Span(s, p)..], p, q); } else { SameRuns(s[1..], p, q); }
    }
  }

  lemma {:induction false} SameSpan(s: string, p: char -> bool, q: char -> bool)
    requires forall c :: p(c) <==> q(c)
    ensures Span(s, p) == Span(s, q)
  {
    if s != "" { SameSpan(s[1..], p, q); }
  }

  /** A stretch of characters of the class with none beside it. */
  ghost predicate IsRun(s: string, p: char -> bool, a: int, b: int) {
    && 0 <= a < b <= |s| && (forall i :: a <= i < b ==> p(s[i]))
    && (a == 0 || !p(s[a - 1])) && (b == |s| || !p(s[b]))
  }

  ghost predicate HasRun(s: string, p: char -> bool, from: nat, w: string) {
    exists a, b :: from <= a && IsRun(s, p, a, b) && s[a..b] == w
  }

  /** The runs of a text are its longest stretches of characters of the class, wherever they stand. */
  lemma RunsAreStretches(s: string, p: char -> bool, w: string)
    ensures w in Runs(s, p) <==> HasRun(s, p, 0, w)
  {
    RunsFrom(s, p, 0, w);
    assert s[0..] == s;
  }

  lemma {:induction false} RunsFrom(s: string, p: char -> bool, from: nat, w: string)
    requires from <= |s| && (from == 0 || from == |s| || !p(s[from - 1]) || !p(s[from]))
    ensures w in Runs(s[from..], p) <==> HasRun(s, p, from, w)
    decreases |s| - from
  {
    var rest := s[from..];
    if from < |s| && !p(s[from]) {
      assert rest[0] == s[from] && rest[1..] == s[from + 1..];
      RunsFrom(s, p, from + 1, w);
      NoRunAt(s, p, from, w);
    } else if from < |s| {
      var n := Span(rest, p);
      assert rest[n..] == s[from + n..] && rest[..n] == s[from..from + n];
      assert forall i :: 0 <= i < n ==> rest[i] == s[from + i];
      RunsFrom(s, p, from + n, w);
      RunAtFront(s, p, from, n, w);
    }
  }

  lemma NoRunAt(s: string, p: char -> bool, from: nat, w: string)
    requires from < |s| && !p(s[from])
    ensures HasRun(s, p, from, w) <==> HasRun(s, p, from + 1, w)
  {
    if HasRun(s, p, from, w) {
      var a, b :| from <= a && IsRun(s, p, a, b) && s[a..b] == w;
      assert p(s[a]) && a != from;
    }
  }

  lemma RunAtFront(s: string, p: char -> bool, from: nat, n: nat, w: string)
    requires 0 < n <= |s| - from && (from == 0 || !p(s[from - 1])) && forall i :: from <= i < from + n ==> p(s[i])
    requires from + n == |s| || !p(s[from + n])
    ensures HasRun(s, p, from, w) <==> w == s[from..from + n] || HasRun(s, p, from + n, w)
  {
    assert IsRun(s, p, from, from + n);
    if HasRun(s, p, from, w) {
      var a, b :| from <= a && IsRun(s, p, a, b) && s[a..b] == w;
      StretchAtFront(s, p, from, n, a, b);
    }
  }

  lemma StretchAtFront(s: string, p: char -> bool, from: nat, n: nat, a: int, b: int)
    requires 0 < n <= |s| - from && forall i :: from <= i < from + n ==> p(s[i])
    requires from + n == |s| || !p(s[from + n])
    requires from <= a && IsRun(s, p, a, b)
    ensures (a == from && b == from + n) || from + n <= a
  {
  }

  /** Joining words of the class by one character outside it and cutting again is lossless. */
  lemma {:induction false} RunsOfJoin(words: seq<string>, c: char, p: char -> bool)
    requires !p(c) && AllWords(words, p)
    ensures Runs(Join(words, [c]), p) == words
  {
    if |words| == 1 {
      RunsOfOne(words[0], p);
    } else if |words| > 1 {
      RunsSplit(words[0], c, Join(words[1..], [c]), p);
      RunsOfOne(words[0], p);
      RunsOfJoin(words[1..], c, p);
    }
  }

  // ---- the code-point order -------------------------------------------------------------

  lemma {:induction false} LessIrreflexive(a: string)
    ensures !Less(a, a)
  {
    if a != "" { LessIrreflexive(a[1..]); }
  }

  lemma {:induction false} LessTransitive(a: string, b: string, c: string)
    requires Less(a, b) && Less(b, c)
    ensures Less(a, c)
  {
    if a != "" && a[0] == b[0] && b[0] == c[0] { LessTransitive(a[1..], b[1..], c[1..]); }
  }

  lemma {:induction false} LessTotal(a: string, b: string)
    ensures a == b || Less(a, b) || Less(b, a)
  {
    if a != "" && b != "" && a[0] == b[0] {
      LessTotal(a[1..], b[1..]);
      assert a == [a[0]] + a[1..] && b == [b[0]] + b[1..];
    }
  }

  /** A common prefix does not matter to the order. */
  lemma {:induction false} LessAfterPrefix(p: string, a: string, b: string)
    ensures Less(p + a, p + b) == Less(a, b)
  {
    if p == "" {
      assert p + a == a && p + b == b;
    } else {
      assert (p + a)[1..] == p[1..] + a && (p + b)[1..] == p[1..] + b;
      LessAfterPrefix(p[1..], a, b);
    }
  }
}
