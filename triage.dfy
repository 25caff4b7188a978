/** Narrative triage of the incidents service: the call taker's narrative is
    normalised and split into tokens, and every protocol linked to a nature is
    scored by how many of its keywords occur among those tokens. */
module Triage {
  import opened Common
  import opened Entities
  import opened Sorting

  // ---------------------------------------------------------------------------
  // Normalisation: lower case, then decompose and drop the combining marks

  /** `toLowerCase` on ASCII and Latin-1 letters; other characters are kept. */
  function Lower(c: char): char {
    if 'A' <= c <= 'Z' || ('\U{00C0}' <= c <= '\U{00DE}' && c != '\U{00D7}') then (c as int + 32) as char
    else c
  }

  /** The per-character effect of lower-casing, canonical decomposition and removal
      of the combining marks: an accented Latin-1 letter becomes its base letter. */
  function FoldChar(c: char): (r: char)
    ensures 'A' <= c <= 'Z' ==> r == (c as int + 32) as char
    ensures ('\U{00C0}' <= c <= '\U{00C5}' || '\U{00E0}' <= c <= '\U{00E5}') ==> r == 'a'
    ensures (c == '\U{00C7}' || c == '\U{00E7}') ==> r == 'c'
    ensures ('\U{00C8}' <= c <= '\U{00CB}' || '\U{00E8}' <= c <= '\U{00EB}') ==> r == 'e'
    ensures ('\U{00CC}' <= c <= '\U{00CF}' || '\U{00EC}' <= c <= '\U{00EF}') ==> r == 'i'
    ensures (c == '\U{00D1}' || c == '\U{00F1}') ==> r == 'n'
    ensures ('\U{00D2}' <= c <= '\U{00D6}' || '\U{00F2}' <= c <= '\U{00F6}') ==> r == 'o'
    ensures ('\U{00D9}' <= c <= '\U{00DC}' || '\U{00F9}' <= c <= '\U{00FC}') ==> r == 'u'
    ensures (c == '\U{00DD}' || c == '\U{00FD}' || c == '\U{00FF}') ==> r == 'y'
    // the Latin-1 capitals without a decomposition only lose their case
    ensures c in {'\U{00C6}', '\U{00D0}', '\U{00D8}', '\U{00DE}'} ==> r == (c as int + 32) as char
    // the upper-half Latin-1 characters that are neither capitals nor accented are kept
    ensures c in {'\U{00D7}', '\U{00DF}', '\U{00E6}', '\U{00F0}', '\U{00F7}', '\U{00F8}', '\U{00FE}'} ==> r == c
    // everything outside the ASCII capitals and the upper half of Latin-1 is kept
    ensures !('A' <= c <= 'Z') && !('\U{00C0}' <= c <= '\U{00FF}') ==> r == c
  {
    var l := Lower(c);
    if '\U{00E0}' <= l <= '\U{00E5}' then 'a'
    else if l == '\U{00E7}' then 'c'
    else if '\U{00E8}' <= l <= '\U{00EB}' then 'e'
    else if '\U{00EC}' <= l <= '\U{00EF}' then 'i'
    else if l == '\U{00F1}' then 'n'
    else if '\U{00F2}' <= l <= '\U{00F6}' then 'o'
    else if '\U{00F9}' <= l <= '\U{00FC}' then 'u'
    else if l == '\U{00FD}' || l == '\U{00FF}' then 'y'
    else l
  }

  /** The block U+0300..U+036F the source's regular expression removes. */
  predicate IsCombiningMark(c: char) {
    '\U{0300}' <= c <= '\U{036F}'
  }

  /** A character a normalised text can hold: folded already and not a combining mark. */
  predicate IsNormal(c: char) {
    FoldChar(c) == c && !IsCombiningMark(c)
  }

  lemma FoldCharNormal(c: char)
    ensures IsCombiningMark(c) || IsNormal(FoldChar(c))
  {
  }

  function Normalize(text: string): (r: string)
    ensures forall c :: c in r ==> IsNormal(c)
    ensures |r| <= |text|
  {
    var folded := seq(|text|, i requires 0 <= i < |text| => FoldChar(text[i]));
    var r := Filter(c => !IsCombiningMark(c), folded);
    forall c | c in r
      ensures IsNormal(c)
    {
      var i :| 0 <= i < |folded| && folded[i] == c;
      FoldCharNormal(text[i]);
    }
    r
  }

  /** Normalisation works character by character: it distributes over concatenation. */
  lemma NormalizeAppend(a: string, b: string)
    ensures Normalize(a + b) == Normalize(a) + Normalize(b)
  {
    var fa := seq(|a|, i requires 0 <= i < |a| => FoldChar(a[i]));
    var fb := seq(|b|, i requires 0 <= i < |b| => FoldChar(b[i]));
    var fab := seq(|a + b|, i requires 0 <= i < |a + b| => FoldChar((a + b)[i]));
    assert fab == fa + fb;
    FilterAppend(c => !IsCombiningMark(c), fa, fb);
  }

  /** What normalisation makes of one character: its folded form, unless that is a
      combining mark, which is dropped. */
  lemma NormalizeChar(c: char)
    ensures Normalize([c]) == (if IsCombiningMark(FoldChar(c)) then [] else [FoldChar(c)])
  {
    var folded := seq(1, i requires 0 <= i < 1 => FoldChar([c][i]));
    assert folded == [FoldChar(c)];
    assert folded[1..] == [];
  }

  /** A text made of normal characters is its own normal form. */
  lemma NormalizeKeepsNormal(t: string)
    requires forall c :: c in t ==> IsNormal(c)
    ensures Normalize(t) == t
  {
    var folded := seq(|t|, i requires 0 <= i < |t| => FoldChar(t[i]));
    forall i | 0 <= i < |t|
      ensures folded[i] == t[i]
    {
      assert t[i] in t;
    }
    assert folded == t;
    FilterKeepsAll(c => !IsCombiningMark(c), t);
  }

  lemma NormalizeIdempotent(text: string)
    ensures Normalize(Normalize(text)) == Normalize(text)
  {
    NormalizeKeepsNormal(Normalize(text));
  }

  /** Normalisation keeps every whitespace character, so it never joins two words. */
  lemma NormalizeKeepsSpaces(text: string, i: nat)
    requires i < |text| && IsJsSpace(text[i])
    ensures text[i] in Normalize(text)
  {
    var folded := seq(|text|, j requires 0 <= j < |text| => FoldChar(text[j]));
    assert folded[i] == text[i];
  }

  // ---------------------------------------------------------------------------
  // Splitting on runs of whitespace

  /** The characters of the JavaScript class `\s`. */
  predicate IsJsSpace(c: char) {
    || c == '\t' || c == '\n' || c == '\U{000B}' || c == '\U{000C}' || c == '\r' || c == ' '
    || c == '\U{00A0}' || c == '\U{1680}' || ('\U{2000}' <= c <= '\U{200A}')
    || c == '\U{2028}' || c == '\U{2029}' || c == '\U{202F}' || c == '\U{205F}'
    || c == '\U{3000}' || c == '\U{FEFF}'
  }

  predicate NoSpace(w: string) {
    forall c :: c in w ==> !IsJsSpace(c)
  }

  function Concat(ss: seq<string>): string {
    if ss == [] then [] else ss[0] + Concat(ss[1..])
  }

  /** `s.split(/\s+/)`: the pieces between maximal runs of whitespace, with an
      empty piece before a leading run and after a trailing one. Together the pieces
      hold exactly the non-whitespace characters, in order, and only the first
      and the last piece can be empty. */
  function Split(s: string): (r: seq<string>)
    ensures |r| >= 1
    ensures forall i :: 0 <= i < |r| ==> NoSpace(r[i])
    ensures Concat(r) == Filter(c => !IsJsSpace(c), s)
    ensures forall i :: 0 < i < |r| - 1 ==> r[i] != []
    ensures s != [] && !IsJsSpace(s[0]) ==> r[0] != []
    ensures forall i, c :: 0 <= i < |r| && c in r[i] ==> c in s
  {
    if s == [] then [[]]
    else
      var t := Split(s[1..]);
      if !IsJsSpace(s[0]) then
        assert Concat(t) == t[0] + Concat(t[1..]);
        [[s[0]] + t[0]] + t[1..]
      else if |s| > 1 && IsJsSpace(s[1]) then t
      else [[]] + t
  }

  /** A word without whitespace splits into itself. */
  lemma {:induction false} SplitWord(w: string)
    requires w != [] && NoSpace(w)
    ensures Split(w) == [w]
  {
    assert w == [w[0]] + w[1..];
    if |w| > 1 {
      SplitWord(w[1..]);
    }
  }

  /** A run of whitespace before a word (or before the end) closes the piece in
      front of it: on its own at the start it yields one empty piece. */
  lemma {:induction false} SplitSpaceRun(sp: string, t: string)
    requires sp != [] && forall i :: 0 <= i < |sp| ==> IsJsSpace(sp[i])
    requires t == [] || !IsJsSpace(t[0])
    ensures Split(sp + t) == [[]] + Split(t)
  {
    assert (sp + t)[1..] == sp[1..] + t;
    if |sp| > 1 {
      SplitSpaceRun(sp[1..], t);
    }
  }

  /** A word in front of a text whose first piece is empty becomes that first piece. */
  lemma {:induction false} SplitWordThen(w: string, rest: string, pieces: seq<string>)
    requires w != [] && NoSpace(w)
    requires Split(rest) == [[]] + pieces
    ensures Split(w + rest) == [w] + pieces
  {
    var s := w + rest;
    assert s[0] == w[0] && w[0] in w;
    assert s[1..] == w[1..] + rest;
    var t := Split(s[1..]);
    assert Split(s) == [[w[0]] + t[0]] + t[1..];
    if |w| > 1 {
      assert NoSpace(w[1..]) by {
        forall c | c in w[1..] ensures c in w { }
      }
      SplitWordThen(w[1..], rest, pieces);
      assert [w[0]] + w[1..] == w;
    } else {
      assert s[1..] == rest;
      assert [w[0]] + t[0] == w;
    }
  }

  /** The split points are exactly the whitespace runs: a word, a run of whitespace
      and the rest split into the word followed by the pieces of the rest. */
  lemma SplitJoin(w: string, sp: string, t: string)
    requires w != [] && NoSpace(w)
    requires sp != [] && forall i :: 0 <= i < |sp| ==> IsJsSpace(sp[i])
    requires t == [] || !IsJsSpace(t[0])
    ensures Split(w + sp + t) == [w] + Split(t)
  {
    var rest := sp + t;
    SplitSpaceRun(sp, t);
    SplitWordThen(w, rest, Split(t));
    assert w + sp + t == w + rest;
  }

  // ---------------------------------------------------------------------------
  // Tokens

  /** The stopwords, as written (the accented `está` among them). */
  const Stopwords: set<string> := {
    "o", "a", "os", "as", "de", "do", "da", "dos", "das", "em", "no", "na",
    "nos", "nas", "um", "uma", "uns", "umas", "e", "para", "com", "que",
    "est\U{00E1}", "esta", "meu", "minha"
  }

  /** `word.length`: JavaScript counts UTF-16 code units, so a character above
      U+FFFF (a surrogate pair) counts twice. */
  function Utf16Length(w: string): (r: nat)
    ensures r == |w| + |Filter(IsAstral, w)|
    ensures |w| <= r <= 2 * |w|
  {
    if w == [] then 0
    else (if IsAstral(w[0]) then 2 else 1) + Utf16Length(w[1..])
  }

  /** A character outside the Basic Multilingual Plane, which UTF-16 stores as a
      surrogate pair. */
  predicate IsAstral(c: char) {
    c as int > 0xFFFF
  }

  /** Within the Basic Multilingual Plane the JavaScript length is the number of characters. */
  lemma {:induction false} Utf16LengthBmp(w: string)
    requires forall i :: 0 <= i < |w| ==> w[i] as int <= 0xFFFF
    ensures Utf16Length(w) == |w|
  {
    if w != [] {
      Utf16LengthBmp(w[1..]);
    }
  }

  /** `word.length > 2 && !stopwords.has(word)`. */
  predicate IsToken(w: string) {
    Utf16Length(w) > 2 && w !in Stopwords
  }

  /** A two-character word with a character above U+FFFF is a token: its JavaScript
      length is three. */
  lemma SurrogatePairToken()
    ensures |"a\U{1F691}"| == 2 && IsToken("a\U{1F691}")
  {
    assert Utf16Length("a\U{1F691}"[1..]) == 2;
  }

  /** `cleanAndTokenize`: the pieces of the normalised narrative longer than two
      characters that are not stopwords, in narrative order. */
  function Tokenize(text: string): (r: seq<string>)
    ensures forall w :: w in r <==> w in Split(Normalize(text)) && IsToken(w)
  {
    Filter(IsToken, Split(Normalize(text)))
  }

  /** Every token is longer than two UTF-16 units (so has at least two characters),
      no stopword, free of whitespace and already in normal form. */
  lemma TokenShape(text: string, w: string)
    requires w in Tokenize(text)
    ensures Utf16Length(w) > 2 && |w| >= 2 && w !in Stopwords && NoSpace(w) && Normalize(w) == w
  {
    assert w in Split(Normalize(text)) && IsToken(w);
    PieceShape(text, w);
  }

  /** A piece of a normalised text holds no whitespace and is in normal form. */
  lemma PieceShape(text: string, w: string)
    requires w in Split(Normalize(text))
    ensures NoSpace(w) && Normalize(w) == w
  {
    var pieces := Split(Normalize(text));
    var i :| 0 <= i < |pieces| && pieces[i] == w;
    assert NoSpace(pieces[i]);
    NormalizeKeepsNormal(w);
  }

  /** A keyword holding whitespace (a phrase) can never match a token. */
  lemma PhraseNeverMatches(keyword: string, i: nat, text: string)
    requires i < |keyword| && IsJsSpace(keyword[i])
    ensures Normalize(keyword) !in Tokenize(text)
  {
    NormalizeKeepsSpaces(keyword, i);
    if Normalize(keyword) in Tokenize(text) {
      TokenShape(text, Normalize(keyword));
    }
  }

  /** The accented stopword is dead: tokens are normalised, so `está` never is one,
      and the unaccented `esta` is what removes it. */
  lemma AccentedStopwordUnreachable(text: string)
    ensures "est\U{00E1}" !in Split(Normalize(text))
  {
    var w := "est\U{00E1}";
    assert !IsNormal(w[3]);
    AbnormalNotAPiece(text, w, 3);
  }

  /** A word holding a character outside the normal form is no piece of a normalised text. */
  lemma AbnormalNotAPiece(text: string, w: string, i: nat)
    requires i < |w| && !IsNormal(w[i])
    ensures w !in Split(Normalize(text))
  {
  }

  // ---------------------------------------------------------------------------
  // Scoring

  /** How many keyword entries (counting repeats) have their normal form among the tokens. */
  function Score(keywords: seq<string>, tokens: seq<string>): (r: nat)
    ensures r <= |keywords|
  {
    if keywords == [] then 0
    else Score(keywords[..|keywords| - 1], tokens) + (if Normalize(keywords[|keywords| - 1]) in tokens then 1 else 0)
  }

  predicate Matches(tokens: seq<string>, keyword: string) {
    Normalize(keyword) in tokens
  }

  /** The score is the number of matching keyword entries. */
  lemma {:induction false} ScoreCounts(keywords: seq<string>, tokens: seq<string>)
    ensures Score(keywords, tokens) == |Filter(k => Matches(tokens, k), keywords)|
  {
    if keywords != [] {
      var n := |keywords| - 1;
      ScoreCounts(keywords[..n], tokens);
      assert keywords == keywords[..n] + [keywords[n]];
      FilterAppend(k => Matches(tokens, k), keywords[..n], [keywords[n]]);
    }
  }

  /** At most one point per keyword, and a point exactly when some keyword matches. */
  lemma ScoreBounds(keywords: seq<string>, tokens: seq<string>)
    ensures Score(keywords, tokens) <= |keywords|
    ensures Score(keywords, tokens) > 0 <==> exists k :: k in keywords && Normalize(k) in tokens
  {
    ScoreCounts(keywords, tokens);
    var matching := Filter(k => Matches(tokens, k), keywords);
    if exists k :: k in keywords && Normalize(k) in tokens {
      var k :| k in keywords && Normalize(k) in tokens;
      assert k in matching;
    }
  }

  // ---------------------------------------------------------------------------
  // Suggestions

  datatype Suggestion = Suggestion(protocolId: Id, natureId: Id, natureCode: string, natureName: string, score: nat)

  /** The rows of the protocol query: those whose nature is set. */
  function LinkedProtocols(rows: seq<Protocol>): (r: seq<Protocol>)
    ensures forall p :: p in r <==> p in rows && p.nature.Some?
  {
    Filter((p: Protocol) => p.nature.Some?, rows)
  }

  function SuggestionFor(p: Protocol, score: nat): Suggestion
    requires p.nature.Some?
  {
    Suggestion(p.id, p.nature.value.id, p.nature.value.code, p.nature.value.name, score)
  }

  /** The suggestion of every protocol that scores, in protocol order. */
  function Scored(protocols: seq<Protocol>, tokens: seq<string>): (r: seq<Suggestion>)
    requires forall p :: p in protocols ==> p.nature.Some?
    ensures forall x :: x in r <==>
      exists p :: p in protocols && Score(p.keywords, tokens) > 0 && x == SuggestionFor(p, Score(p.keywords, tokens))
    ensures forall x :: x in r ==> x.score > 0
  {
    if protocols == [] then []
    else
      var n := |protocols| - 1;
      var p := protocols[n];
      var s := Score(p.keywords, tokens);
      assert protocols == protocols[..n] + [p];
      assert forall q :: q in protocols <==> q in protocols[..n] || q == p;
      Scored(protocols[..n], tokens) + (if s > 0 then [SuggestionFor(p, s)] else [])
  }

  /** `b.score - a.score` as a comparator: a higher score first. */
  predicate ScoreBefore(a: Suggestion, b: Suggestion) {
    a.score >= b.score
  }

  lemma ScoreOrderTotal()
    ensures TotalPreorder(ScoreBefore)
  {
  }

  function Min(a: nat, b: nat): nat {
    if a <= b then a else b
  }

  /** `sort((a, b) => b.score - a.score).slice(0, 5)`: the list by score, highest
      first, cut after five entries. */
  function TopFive(all: seq<Suggestion>): (r: seq<Suggestion>)
    ensures |r| == Min(5, |all|)
  {
    var sorted := SortBy(ScoreBefore, all);
    sorted[..Min(5, |sorted|)]
  }

  /** At most five entries, highest score first, and only positive scores when
      the input has only positive scores. */
  lemma TopFiveShape(all: seq<Suggestion>)
    ensures |TopFive(all)| == Min(5, |all|) <= 5
    ensures SortedBy(ScoreBefore, TopFive(all))
    ensures (forall i :: 0 <= i < |all| ==> all[i].score > 0) ==>
      forall i :: 0 <= i < |TopFive(all)| ==> TopFive(all)[i].score > 0
  {
    var sorted := SortBy(ScoreBefore, all);
    ScoreOrderTotal();
    SortBySorted(ScoreBefore, all);
    var r := sorted[..Min(5, |sorted|)];
    if forall i :: 0 <= i < |all| ==> all[i].score > 0 {
      forall i | 0 <= i < |r|
        ensures r[i].score > 0
      {
        assert r[i] == sorted[i];
        assert sorted[i] in multiset(all);
      }
    }
  }

  /** The kept entries are the best of the input: all of it when it has at most
      five entries, and otherwise none left out outscores one kept. */
  lemma TopFiveBest(all: seq<Suggestion>)
    ensures var r := TopFive(all);
      && multiset(r) <= multiset(all)
      && (|all| <= 5 ==> multiset(r) == multiset(all))
      && (forall b :: b in all && multiset(r)[b] < multiset(all)[b] ==>
            forall i :: 0 <= i < |r| ==> r[i].score >= b.score)
  {
    var sorted := SortBy(ScoreBefore, all);
    ScoreOrderTotal();
    SortBySorted(ScoreBefore, all);
    PrefixIsTop(sorted, Min(5, |sorted|));
  }

  /** `analyzeNarrative`: no suggestion without tokens; otherwise the five best of
      the scoring protocols. */
  function Suggest(narrative: string, rows: seq<Protocol>): (r: seq<Suggestion>)
    ensures |r| <= 5
  {
    var tokens := Tokenize(narrative);
    if tokens == [] then [] else TopFive(Scored(LinkedProtocols(rows), tokens))
  }

  /** What a suggestion list promises: five entries, or all scoring protocols when
      fewer score, all scoring, highest first, and none at all when the narrative
      has no token. */
  lemma SuggestShape(narrative: string, rows: seq<Protocol>)
    ensures Tokenize(narrative) != [] ==>
      |Suggest(narrative, rows)| == Min(5, |Scored(LinkedProtocols(rows), Tokenize(narrative))|)
    ensures var r := Suggest(narrative, rows);
      && |r| <= 5
      && (forall i :: 0 <= i < |r| ==> r[i].score > 0)
      && SortedBy(ScoreBefore, r)
    ensures Tokenize(narrative) == [] ==> Suggest(narrative, rows) == []
  {
    var tokens := Tokenize(narrative);
    if tokens != [] {
      var all := Scored(LinkedProtocols(rows), tokens);
      forall i | 0 <= i < |all|
        ensures all[i].score > 0
      {
        assert all[i] in all;
      }
      TopFiveShape(all);
    }
  }

  /** The first m entries of a score-sorted list outscore the rest. */
  lemma PrefixIsTop(sorted: seq<Suggestion>, m: nat)
    requires m <= |sorted|
    requires SortedBy(ScoreBefore, sorted)
    ensures multiset(sorted[..m]) <= multiset(sorted)
    ensures m == |sorted| ==> multiset(sorted[..m]) == multiset(sorted)
    ensures forall b :: b in sorted && multiset(sorted[..m])[b] < multiset(sorted)[b] ==>
      forall i :: 0 <= i < m ==> sorted[i].score >= b.score
  {
    var r, rest := sorted[..m], sorted[m..];
    assert sorted == r + rest;
    assert multiset(sorted) == multiset(r) + multiset(rest);
    forall b | b in sorted && multiset(r)[b] < multiset(sorted)[b]
      ensures forall i :: 0 <= i < m ==> sorted[i].score >= b.score
    {
      assert b in multiset(rest);
      var k :| 0 <= k < |rest| && rest[k] == b;
      assert sorted[m + k] == b;
    }
  }

  /** A protocol with a nature whose keywords match appears among the suggestions
      whenever at most five protocols score. */
  lemma MatchingProtocolSuggested(narrative: string, rows: seq<Protocol>, p: Protocol, k: string)
    requires p in rows && p.nature.Some?
    requires k in p.keywords && Normalize(k) in Tokenize(narrative)
    requires |Scored(LinkedProtocols(rows), Tokenize(narrative))| <= 5
    ensures SuggestionFor(p, Score(p.keywords, Tokenize(narrative))) in Suggest(narrative, rows)
  {
    var tokens := Tokenize(narrative);
    var all := Scored(LinkedProtocols(rows), tokens);
    ScoreBounds(p.keywords, tokens);
    TopFiveBest(all);
    var x := SuggestionFor(p, Score(p.keywords, tokens));
    assert x in all;
    assert x in multiset(TopFive(all));
  }

  /** The loops of `analyzeNarrative` over the rows the protocol query returns. */
  method AnalyzeNarrative(narrative: string, rows: seq<Protocol>) returns (r: seq<Suggestion>)
    ensures r == Suggest(narrative, rows)
  {
    var tokens := Tokenize(narrative);
    if |tokens| == 0 {
      return [];
    }
    var scored := ScoreAll(LinkedProtocols(rows), tokens);
    var sorted := SortBy(ScoreBefore, scored);
    r := sorted[..Min(5, |sorted|)];
  }

  /** The outer loop of `analyzeNarrative`: a suggestion for every protocol that scores. */
  method ScoreAll(all: seq<Protocol>, tokens: seq<string>) returns (scored: seq<Suggestion>)
    requires forall p :: p in all ==> p.nature.Some?
    ensures scored == Scored(all, tokens)
  {
    scored := [];
    for i := 0 to |all|
      invariant scored == Scored(all[..i], tokens)
    {
      var p := all[i];
      var score := ScoreKeywords(p.keywords, tokens);
      assert all[..i + 1][..i] == all[..i];
      if score > 0 {
        scored := scored + [SuggestionFor(p, score)];
      }
    }
    assert all[..|all|] == all;
  }

  /** The inner loop of `analyzeNarrative`: one point per matching keyword. */
  method ScoreKeywords(keywords: seq<string>, tokens: seq<string>) returns (score: nat)
    ensures score == Score(keywords, tokens)
  {
    score := 0;
    for j := 0 to |keywords|
      invariant score == Score(keywords[..j], tokens)
    {
      assert keywords[..j + 1][..j] == keywords[..j];
      if Normalize(keywords[j]) in tokens {
        score := score + 1;
      }
    }
    assert keywords[..|keywords|] == keywords;
  }
}
