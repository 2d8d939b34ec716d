/** Full-text search: the join of an index with its table, and what a scan without the index
    would find. */
module Search {
  import opened Wrappers
  import opened Text
  import opened Query
  import opened Tables
  import opened Projection
  import opened Json

  /** A phrase matches where its terms stand next to each other. */
  predicate PhraseIn(phrase: seq<string>, terms: seq<string>) {
    exists i :: 0 <= i <= |terms| && PhraseAt(phrase, terms, i)
  }

  predicate PhraseAt(phrase: seq<string>, terms: seq<string>, i: int) {
    0 <= i <= |terms| - |phrase| && terms[i..i + |phrase|] == phrase
  }

  /** `fts MATCH expression`, for an expression that is phrases joined by OR. */
  predicate MatchesDocument(u: Unicode, expression: string, text: string) {
    var tokens := Lex(expression);
    tokens.Some? && exists i :: 0 <= i < |tokens.value| && tokens.value[i].Phrase?
                                && PhraseIn(Terms(u, tokens.value[i].text), Terms(u, text))
  }

  /** Whether a row is one the caller may see in recall at all. */
  predicate InScope<C>(row: Row<C>, account: string, profile: Option<string>) {
    row.owner.account == account && (profile.Some? ==> row.owner.profile == profile.value) && row.Live()
  }

  /** `FROM fts JOIN rows ON rows.seq = fts.rowid WHERE ...` */
  function Hits<K, C>(u: Unicode, s: Shelf<K, C>, expression: string, account: string,
                      profile: Option<string>): set<K> {
    set k | k in s.rows && s.rows[k].docid in s.index
            && MatchesDocument(u, expression, s.index[s.rows[k].docid]) && InScope(s.rows[k], account, profile)
  }

  /** Whether some word typed is a word of the text, both stemmed. */
  predicate HoldsSomeWord(u: Unicode, raw: string, bag: multiset<string>) {
    exists w :: w in Runs(raw, u.isWord) && u.stem(w) in bag
  }

  /** `found` is what a limited, ranked query may answer: so many of the hits, none twice, best
      rank first, and none left out that ranks before one of them.  Ties are the database's to break. */
  ghost predicate Answers<K(!new)>(hits: set<K>, rank: K -> real, limit: int, found: seq<K>) {
    && ToSet(found) <= hits && |ToSet(found)| == |found|
    && |found| == (if 0 <= limit < |hits| then limit else |hits|)
    && Ascending(found, rank)
    && NoneBefore(hits - ToSet(found), found, rank)
  }

  ghost predicate Ascending<K(!new)>(found: seq<K>, rank: K -> real) {
    forall i, j :: 0 <= i < j < |found| ==> rank(found[i]) <= rank(found[j])
  }

  ghost predicate NoneBefore<K(!new)>(others: set<K>, found: seq<K>, rank: K -> real) {
    forall i, other :: 0 <= i < |found| && other in others ==> rank(found[i]) <= rank(other)
  }

  lemma NextBest<K(!new)>(left: set<K>, found: seq<K>, k: K, rank: K -> real)
    requires Ascending(found, rank) && NoneBefore(left, found, rank) && k in left
    requires forall other :: other in left ==> rank(k) <= rank(other)
    ensures Ascending(found + [k], rank) && NoneBefore(left - {k}, found + [k], rank)
  {
    forall i, other | 0 <= i < |found + [k]| && other in left - {k} ensures rank((found + [k])[i]) <= rank(other) {
      assert other in left;
      if i < |found| { assert (found + [k])[i] == found[i]; }
    }
    forall i, j | 0 <= i < j < |found + [k]| ensures rank((found + [k])[i]) <= rank((found + [k])[j]) {
      assert (found + [k])[i] == found[i];
      if j < |found| { assert (found + [k])[j] == found[j]; }
    }
  }

  lemma {:induction false} BestExists<K(!new)>(ks: set<K>, rank: K -> real) returns (best: K)
    requires ks != {}
    ensures best in ks && forall k :: k in ks ==> rank(best) <= rank(k)
  {
    best :| best in ks;
    if ks != {best} {
      var other := BestExists(ks - {best}, rank);
      if rank(other) < rank(best) { best := other; }
    }
  }

  /** `ORDER BY bm25 LIMIT ?`: the best ranked, cut off.  A negative limit is no limit. */
  method TakeBest<K(!new)>(hits: set<K>, rank: K -> real, limit: int) returns (found: seq<K>)
    ensures Answers(hits, rank, limit, found)
  {
    found := [];
    var left := hits;
    while left != {} && !(0 <= limit <= |found|)
      invariant left <= hits && ToSet(found) == hits - left && |found| + |left| == |hits|
      invariant |ToSet(found)| == |found| && (0 <= limit ==> |found| <= limit)
      invariant Ascending(found, rank) && NoneBefore(left, found, rank)
      decreases left
    {
      ghost var best := BestExists(left, rank);
      var k :| k in left && forall other :: other in left ==> rank(k) <= rank(other);
      assert ToSet(found + [k]) == ToSet(found) + {k};
      NextBest(left, found, k, rank);
      found := found + [k];
      left := left - {k};
    }
    assert hits - ToSet(found) == left;
  }

  lemma SingleTermPhrase(u: Unicode, w: string, text: string)
    requires w != "" && All(w, u.isWord)
    ensures PhraseIn(Terms(u, w), Terms(u, text)) <==> u.stem(w) in Bag(u, text)
  {
    RunsOfOne(w, u.isWord);
    assert Stems(u, [w]) == [u.stem(w)];
    var terms := Terms(u, text);
    if u.stem(w) in terms {
      var i :| 0 <= i < |terms| && terms[i] == u.stem(w);
      assert PhraseAt([u.stem(w)], terms, i);
    }
    if PhraseIn([u.stem(w)], terms) {
      var i :| 0 <= i <= |terms| && PhraseAt([u.stem(w)], terms, i);
      assert terms[i] == terms[i..i + 1][0];
    }
  }

  lemma {:induction false} AlternativePhrases(words: seq<string>)
    ensures forall i ::
              0 <= i < |Alternatives(words)| && Alternatives(words)[i].Phrase? ==> Alternatives(words)[i].text in words
    ensures forall w :: w in words ==> Phrase(w) in Alternatives(words)
  {
    if |words| > 1 {
      AlternativePhrases(words[1..]);
      var more := Alternatives(words[1..]);
      assert Alternatives(words) == [Phrase(words[0]), OrOperator] + more;
      forall i | 0 <= i < |Alternatives(words)| && Alternatives(words)[i].Phrase?
        ensures Alternatives(words)[i].text in words
      {
        if i >= 2 { assert Alternatives(words)[i] == more[i - 2]; }
      }
      forall w | w in words ensures Phrase(w) in Alternatives(words) {
        if w != words[0] { assert w in words[1..]; }
      }
    }
  }

  /** What a search expression finds in a text is a word somebody typed. */
  lemma ExpressionFindsWords(u: Unicode, raw: string, text: string)
    requires u.Facts() && MatchQuery(u, raw).Success?
    ensures MatchesDocument(u, MatchQuery(u, raw).value, text) <==> HoldsSomeWord(u, raw, Bag(u, text))
  {
    QueryReadsBack(u, raw);
    var words := Runs(raw, u.isWord);
    var tokens := Alternatives(words);
    AlternativePhrases(words);
    if MatchesDocument(u, MatchQuery(u, raw).value, text) {
      var i :| 0 <= i < |tokens| && tokens[i].Phrase? && PhraseIn(Terms(u, tokens[i].text), Terms(u, text));
      SingleTermPhrase(u, tokens[i].text, text);
      assert tokens[i].text in words;
    }
    if HoldsSomeWord(u, raw, Bag(u, text)) {
      var w :| w in words && u.stem(w) in Bag(u, text);
      SingleTermPhrase(u, w, text);
      assert Phrase(w) in tokens;
      var i :| 0 <= i < |tokens| && tokens[i] == Phrase(w);
    }
  }
}
