/** Turning what somebody typed into an FTS5 MATCH expression, and reading one back. */
module Query {
  import opened Wrappers
  import opened Text

  datatype SearchError = InvalidSearch

  function Quoted(word: string): string {
    "\"" + word + "\""
  }

  function QuotedAll(words: seq<string>): (r: seq<string>)
    ensures |r| == |words|
    ensures forall i :: 0 <= i < |words| ==> r[i] == Quoted(words[i])
  {
    seq(|words|, i requires 0 <= i < |words| => Quoted(words[i]))
  }

  /** Render a caller's search string as a MATCH expression. */
  function MatchQuery(u: Unicode, raw: string): Result<string, SearchError> {
    var words := Runs(raw, u.isWord);
    if words == [] then Failure(InvalidSearch)
    else Success(Join(QuotedAll(words), " OR "))
  }

  // ---- what FTS5 makes of an expression -------------------------------------------------

  datatype Token = Phrase(text: string) | OrOperator | AndOperator | NotOperator | Punctuation(c: char)

  /** The characters of an unquoted word. */
  predicate IsBareword(c: char) {
    'a' <= c <= 'z' || 'A' <= c <= 'Z' || '0' <= c <= '9' || c == '_' || c == '\U{1A}' || c >= '\U{80}'
  }

  /** The rest of a quoted string, where two quotes stand for one: its text and what follows. */
  function ReadQuoted(s: string): (r: Option<(string, string)>)
    ensures r.Some? ==> |r.value.1| < |s|
  {
    if s == "" then None
    else if s[0] != '"' then
      var tail := ReadQuoted(s[1..]);
      if tail.Some? then Some(([s[0]] + tail.value.0, tail.value.1)) else None
    else if |s| > 1 && s[1] == '"' then
      var tail := ReadQuoted(s[2..]);
      if tail.Some? then Some((['"'] + tail.value.0, tail.value.1)) else None
    else Some(("", s[1..]))
  }

  function BarewordToken(word: string): Token {
    if word == "OR" then OrOperator
    else if word == "AND" then AndOperator
    else if word == "NOT" then NotOperator
    else Phrase(word)
  }

  /** FTS5's tokenizer for query expressions; None is a syntax error. */
  function Lex(s: string): Option<seq<Token>>
    decreases |s|
  {
    if s == "" then Some([])
    else if s[0] in " \t\n\r" then Lex(s[1..])
    else if s[0] in "(){}:,+*-^" then Then(Punctuation(s[0]), Lex(s[1..]))
    else if s[0] == '"' then
      var q := ReadQuoted(s[1..]);
      if q.None? then None else Then(Phrase(q.value.0), Lex(q.value.1))
    else if IsBareword(s[0]) then
      var n := Span(s, IsBareword);
      Then(BarewordToken(s[..n]), Lex(s[n..]))
    else None
  }

  function Then(t: Token, rest: Option<seq<Token>>): Option<seq<Token>> {
    if rest.Some? then Some([t] + rest.value) else None
  }

  /** Phrases joined by OR and nothing else. */
  function Alternatives(words: seq<string>): seq<Token> {
    if words == [] then []
    else if |words| == 1 then [Phrase(words[0])]
    else [Phrase(words[0]), OrOperator] + Alternatives(words[1..])
  }

  lemma {:induction false} ReadsBackQuoted(word: string, rest: string)
    requires '"' !in word && (rest == "" || rest[0] != '"')
    ensures ReadQuoted(word + "\"" + rest) == Some((word, rest))
  {
    var s := word + "\"" + rest;
    if word == "" {
      assert s[1..] == rest;
    } else {
      assert s[1..] == word[1..] + "\"" + rest;
      ReadsBackQuoted(word[1..], rest);
      assert [word[0]] + word[1..] == word;
    }
  }

  lemma {:induction false} LexesAlternatives(words: seq<string>, p: char -> bool)
    requires AllWords(words, p) && !p('"')
    ensures Lex(Join(QuotedAll(words), " OR ")) == Some(Alternatives(words))
  {
    if words != [] {
      assert '"' !in words[0];
      var quoted := QuotedAll(words);
      assert quoted[1..] == QuotedAll(words[1..]);
      if |words| == 1 {
        LexesPhrase(words[0], "");
        assert Quoted(words[0]) + "" == Quoted(words[0]);
        assert quoted[0] == Quoted(words[0]) && Lex("") == Some([]);
        assert [Phrase(words[0])] + [] == Alternatives(words);
      } else {
        var more := Join(quoted[1..], " OR ");
        assert Join(quoted, " OR ") == Quoted(words[0]) + (" OR " + more);
        LexesPhrase(words[0], " OR " + more);
        LexesOr(more);
        LexesAlternatives(words[1..], p);
        assert [Phrase(words[0])] + ([OrOperator] + Alternatives(words[1..])) == Alternatives(words);
      }
    }
  }

  lemma LexesPhrase(word: string, rest: string)
    requires '"' !in word && (rest == "" || rest[0] != '"')
    ensures Lex(Quoted(word) + rest) == Then(Phrase(word), Lex(rest))
  {
    ReadsBackQuoted(word, rest);
    assert Quoted(word) + rest == "\"" + (word + "\"" + rest);
    LexesQuote(word + "\"" + rest);
  }

  lemma LexesQuote(body: string)
    requires ReadQuoted(body).Some?
    ensures Lex("\"" + body) == Then(Phrase(ReadQuoted(body).value.0), Lex(ReadQuoted(body).value.1))
  {
    assert ("\"" + body)[1..] == body;
  }

  lemma LexesOr(more: string)
    ensures Lex(" OR " + more) == Then(OrOperator, Lex(more))
  {
    var s := " OR " + more;
    var s1 := "OR" + (" " + more);
    assert s[1..] == s1;
    assert (" " + more)[1..] == more;
    SpanOfAll("OR", " " + more, IsBareword);
    assert s1[..2] == "OR" && s1[2..] == " " + more;
    assert Lex(s1) == Then(OrOperator, Lex(" " + more));
  }

  /** The expression is refused exactly when nothing typed was a word; otherwise FTS5 reads
      back precisely the words typed, in order, with no operator but the ORs between them. */
  lemma QueryReadsBack(u: Unicode, raw: string)
    requires u.Facts()
    ensures MatchQuery(u, raw).Failure? <==> forall c :: c in raw ==> !u.isWord(c)
    ensures MatchQuery(u, raw).Success? ==>
      Lex(MatchQuery(u, raw).value) == Some(Alternatives(Runs(raw, u.isWord)))
  {
    if forall c :: c in raw ==> !u.isWord(c) {
      RunsOfNone(raw, u.isWord);
    } else {
      var c :| c in raw && u.isWord(c);
      RunsOfSome(raw, c, u.isWord);
    }
    LexesAlternatives(Runs(raw, u.isWord), u.isWord);
  }

  lemma {:induction false} RunsOfSome(s: string, c: char, p: char -> bool)
    requires c in s && p(c)
    ensures Runs(s, p) != []
  {
    if !p(s[0]) {
      RunsOfSome(s[1..], c, p);
    }
  }
}
