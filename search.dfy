/**
 * Tokenising and indexing documents, python/chapter7-1.py: the words of a document are the
 * matches of `[a-z']{2,}` in its lower-cased text, stripped of apostrophes at both ends, at least
 * two characters long and not stop words; index_document adds the document id to the set
 * "idx:<word>" of every such word.
 */
module Search {
  import opened Common
  import opened Text
  import opened Lists

  const STOP_WORDS: set<string> := {
    "able", "about", "across", "after", "all", "almost", "also", "am", "among",
    "an", "and", "any", "are", "as", "at", "be", "because", "been", "but", "by", "can", "cannot",
    "could", "dear", "did", "do", "does", "either", "else", "ever", "every", "for", "from", "get",
    "got", "had", "has", "have", "he", "her", "hers", "him", "his", "how", "however", "if", "in",
    "into", "is", "it", "its", "just", "least", "let", "like", "likely", "may", "me", "might",
    "most", "must", "my", "neither", "no", "nor", "not", "of", "off", "often", "on", "only", "or",
    "other", "our", "own", "rather", "said", "say", "says", "she", "should", "since", "so", "some",
    "than", "that", "the", "their", "them", "then", "there", "these", "they", "this", "tis", "to",
    "too", "twas", "us", "wants", "was", "we", "were", "what", "when", "where", "which", "while",
    "who", "whom", "why", "will", "with", "would", "yet", "you", "your"}

  /** The character class `[a-z']`. */
  predicate WordChar(c: char) {
    'a' <= c <= 'z' || c == '\''
  }

  // ---------------------------------------------------------------------------------------------
  // WORDS_RE.finditer

  /** The length of the run of word characters at the start of `s`. */
  function LeadingRun(s: string): (n: nat)
    ensures n <= |s|
    ensures forall k :: 0 <= k < n ==> WordChar(s[k])
    ensures n < |s| ==> !WordChar(s[n])
    decreases |s|
  {
    if s == [] || !WordChar(s[0]) then 0 else 1 + LeadingRun(s[1..])
  }

  /** The maximal runs of word characters, left to right. */
  function Runs(s: string): seq<string>
    decreases |s|
  {
    if s == [] then []
    else if !WordChar(s[0]) then Runs(s[1..])
    else
      var n := LeadingRun(s);
      [s[..n]] + Runs(s[n..])
  }

  /** `r` occurs in `s` at `i` as a maximal run of word characters. */
  ghost predicate MaximalRunAt(s: string, r: string, i: nat) {
    && r != []
    && i + |r| <= |s| && s[i..i + |r|] == r
    && (forall k :: i <= k < i + |r| ==> WordChar(s[k]))
    && (i == 0 || !WordChar(s[i - 1]))
    && (i + |r| == |s| || !WordChar(s[i + |r|]))
  }

  /** Every run is a maximal run of word characters somewhere in the text. */
  lemma {:induction false} RunsAreMaximal(s: string)
    ensures forall r :: r in Runs(s) ==> exists i: nat :: MaximalRunAt(s, r, i)
    decreases |s|
  {
    if s != [] {
      var t := s[1..];
      if !WordChar(s[0]) {
        RunsAreMaximal(t);
        assert Runs(s) == Runs(t);
        forall r | r in Runs(s) ensures exists i: nat :: MaximalRunAt(s, r, i) {
          var i: nat :| MaximalRunAt(t, r, i);
          RunShifted(s, 1, r, i);
        }
      } else {
        var n := LeadingRun(s);
        var u := s[n..];
        RunsAreMaximal(u);
        assert MaximalRunAt(s, s[..n], 0);
        forall r | r in Runs(u) ensures exists i: nat :: MaximalRunAt(s, r, i) {
          var i: nat :| MaximalRunAt(u, r, i);
          RunShifted(s, n, r, i);
        }
      }
    }
  }

  /**
   * A maximal run at `i` of `s[n..]` is a maximal run at `n + i` of `s`, when it does not start
   * right after a word character.
   */
  lemma RunShifted(s: string, n: nat, r: string, i: nat)
    requires n <= |s| && MaximalRunAt(s[n..], r, i)
    requires i == 0 ==> n == 0 || !WordChar(s[n - 1])
    ensures MaximalRunAt(s, r, n + i)
  {
    assert s[n + i..n + i + |r|] == s[n..][i..i + |r|];
    if i > 0 {
      assert s[n + i - 1] == s[n..][i - 1];
    }
    forall k | n + i <= k < n + i + |r| ensures WordChar(s[k]) {
      assert s[k] == s[n..][k - n];
    }
    if n + i + |r| < |s| {
      assert s[n + i + |r|] == s[n..][i + |r|];
    }
  }

  /** The matches of `[a-z']{2,}`: finditer is leftmost-greedy, so they are the runs of length >= 2. */
  function Matches(s: string): seq<string> {
    Filter(Runs(s), (r: string) => |r| >= 2)
  }

  // ---------------------------------------------------------------------------------------------
  // strip("'")

  function StripLeft(s: string, c: char): (r: string)
    decreases |s|
  {
    if s != [] && s[0] == c then StripLeft(s[1..], c) else s
  }

  function StripRight(s: string, c: char): (r: string)
    decreases |s|
  {
    if s != [] && s[|s| - 1] == c then StripRight(s[..|s| - 1], c) else s
  }

  function Strip(s: string, c: char): string {
    StripRight(StripLeft(s, c), c)
  }

  /** `strip` keeps a contiguous piece of the text and removes only `c` from either end. */
  lemma StripPiece(s: string, c: char)
    ensures exists i, j :: (0 <= i <= j <= |s| && Strip(s, c) == s[i..j] &&
      (forall k :: 0 <= k < i ==> s[k] == c) && (forall k :: j <= k < |s| ==> s[k] == c))
  {
    var i := StripLeftAt(s, c);
    var t := s[i..];
    var j := StripRightAt(t, c);
    assert t[..j] == s[i..i + j];
    forall k | i + j <= k < |s| ensures s[k] == c {
      assert s[k] == t[k - i];
    }
    assert Strip(s, c) == s[i..i + j];
  }

  /** Where StripLeft cuts: everything before `i` is `c`, and the character at `i` is not. */
  lemma {:induction false} StripLeftAt(s: string, c: char) returns (i: nat)
    ensures i <= |s| && StripLeft(s, c) == s[i..] && forall k :: 0 <= k < i ==> s[k] == c
    ensures i == |s| || s[i] != c
    decreases |s|
  {
    if s != [] && s[0] == c {
      var i' := StripLeftAt(s[1..], c);
      i := i' + 1;
      assert s[1..][i'..] == s[i..];
      forall k | 0 < k < i ensures s[k] == c {
        assert s[k] == s[1..][k - 1];
      }
      if i < |s| {
        assert s[i] == s[1..][i'];
      }
    } else {
      i := 0;
      assert s[0..] == s;
    }
  }

  /** Where StripRight cuts: everything from `j` on is `c`, and the character before `j` is not. */
  lemma {:induction false} StripRightAt(s: string, c: char) returns (j: nat)
    ensures j <= |s| && StripRight(s, c) == s[..j] && forall k :: j <= k < |s| ==> s[k] == c
    ensures j == 0 || s[j - 1] != c
    decreases |s|
  {
    if s != [] && s[|s| - 1] == c {
      var t := s[..|s| - 1];
      j := StripRightAt(t, c);
      assert t[..j] == s[..j];
      if j > 0 {
        assert s[j - 1] == t[j - 1];
      }
    } else {
      j := |s|;
      assert s[..|s|] == s;
    }
  }

  /** What `strip` leaves neither starts nor ends with `c`. */
  lemma StripEnds(s: string, c: char)
    ensures Strip(s, c) == [] || (Strip(s, c)[0] != c && Strip(s, c)[|Strip(s, c)| - 1] != c)
  {
    var i := StripLeftAt(s, c);
    var t := s[i..];
    var j := StripRightAt(t, c);
    if Strip(s, c) != [] {
      assert Strip(s, c) == t[..j];
      assert Strip(s, c)[0] == t[0] == s[i];
      assert Strip(s, c)[j - 1] == t[j - 1];
    }
  }

  /** `strip` keeps a contiguous piece of the text and removes only `c` from either end. */
  lemma StripSpec(s: string, c: char)
    ensures exists i, j :: (0 <= i <= j <= |s| && Strip(s, c) == s[i..j] &&
      (forall k :: 0 <= k < i ==> s[k] == c) && (forall k :: j <= k < |s| ==> s[k] == c))
    ensures Strip(s, c) == [] || (Strip(s, c)[0] != c && Strip(s, c)[|Strip(s, c)| - 1] != c)
  {
    StripPiece(s, c);
    StripEnds(s, c);
  }

  // ---------------------------------------------------------------------------------------------
  // tokenize

  /** The words the loop adds for the given matches: stripped, and only when two characters remain. */
  function Stripped(matches: seq<string>): set<string>
    decreases |matches|
  {
    if matches == [] then {}
    else
      var word := Strip(matches[|matches| - 1], '\'');
      Stripped(matches[..|matches| - 1]) + (if |word| >= 2 then {word} else {})
  }

  lemma {:induction false} StrippedSpec(matches: seq<string>)
    ensures forall w :: w in Stripped(matches) <==>
      exists m :: m in matches && Strip(m, '\'') == w && |w| >= 2
    decreases |matches|
  {
    if matches != [] {
      var init, last := matches[..|matches| - 1], matches[|matches| - 1];
      StrippedSpec(init);
      assert matches == init + [last];
      var word := Strip(last, '\'');
      assert Stripped(matches) == Stripped(init) + (if |word| >= 2 then {word} else {});
      forall w ensures w in Stripped(matches) <==> exists m :: m in matches && Strip(m, '\'') == w && |w| >= 2 {
        if w in Stripped(init) {
          var m :| m in init && Strip(m, '\'') == w && |w| >= 2;
          assert m in matches;
        } else if exists m :: m in matches && Strip(m, '\'') == w && |w| >= 2 {
          var m :| m in matches && Strip(m, '\'') == w && |w| >= 2;
          assert m !in init;
          assert m == last;
        }
      }
    }
  }

  /** tokenize(content) as a value. */
  function Tokens(content: string): set<string> {
    Stripped(Matches(Lower(content))) - STOP_WORDS
  }

  /** tokenize: the loop over the matches collects the stripped words; stop words are removed at the end. */
  method Tokenize(content: string) returns (tokens: set<string>)
    ensures tokens == Tokens(content)
  {
    var matches := Matches(Lower(content));
    var words: set<string> := {};
    for i := 0 to |matches|
      invariant words == Stripped(matches[..i])
    {
      var word := Strip(matches[i], '\'');
      assert matches[..i + 1][..i] == matches[..i];
      if |word| >= 2 {
        words := words + {word};
      }
    }
    assert matches[..|matches|] == matches;
    return words - STOP_WORDS;
  }

  /** Each match is a maximal run of at least two word characters. */
  lemma MatchesAreRuns(s: string, m: string)
    requires m in Matches(s)
    ensures |m| >= 2 && exists i: nat :: MaximalRunAt(s, m, i)
  {
    FilterSpec(Runs(s), (r: string) => |r| >= 2);
    RunsAreMaximal(s);
  }

  /** What strip leaves of a run of word characters: word characters, no apostrophe at either end. */
  lemma StripRun(s: string, m: string, i: nat, w: string)
    requires MaximalRunAt(s, m, i) && Strip(m, '\'') == w && w != []
    ensures forall k :: 0 <= k < |w| ==> WordChar(w[k])
    ensures w[0] != '\'' && w[|w| - 1] != '\''
  {
    StripSpec(m, '\'');
    var a, b :| 0 <= a <= b <= |m| && w == m[a..b];
    forall k | 0 <= k < |w| ensures WordChar(w[k]) {
      assert w[k] == m[a + k] == s[i + a + k];
    }
  }

  /** A token is what strip leaves of some match. */
  lemma TokenFromMatch(content: string, w: string)
    requires w in Tokens(content)
    ensures |w| >= 2 && w !in STOP_WORDS
    ensures exists m :: m in Matches(Lower(content)) && Strip(m, '\'') == w
  {
    StrippedSpec(Matches(Lower(content)));
  }

  /**
   * Every token is at least two characters of `[a-z']` with no apostrophe at either end, is not a
   * stop word, and is what strip leaves of a maximal run of at least two word characters of the
   * lower-cased text.
   */
  lemma TokensSpec(content: string, w: string)
    requires w in Tokens(content)
    ensures |w| >= 2 && w !in STOP_WORDS
    ensures forall k :: 0 <= k < |w| ==> WordChar(w[k])
    ensures w[0] != '\'' && w[|w| - 1] != '\''
    ensures exists r, i: nat :: |r| >= 2 && MaximalRunAt(Lower(content), r, i) && Strip(r, '\'') == w
  {
    var s := Lower(content);
    TokenFromMatch(content, w);
    var m :| m in Matches(s) && Strip(m, '\'') == w;
    MatchesAreRuns(s, m);
    var i: nat :| MaximalRunAt(s, m, i);
    StripRun(s, m, i, w);
  }

  /** Tokenising ignores case. */
  lemma TokensIgnoreCase(content: string)
    ensures Tokens(content) == Tokens(Lower(content))
  {
    LowerIdempotent(content);
  }

  /** A stop word is never a token, even when the text holds it. */
  lemma StopWordsDropped(content: string)
    ensures "the" !in Tokens(content) && "would" !in Tokens(content)
  {
  }

  // ---------------------------------------------------------------------------------------------
  // index_document

  /** The "idx:<word>" sets after adding `doc` to the set of every word in `words`. */
  function AddToWords(idx: map<string, set<string>>, words: set<string>, doc: string): map<string, set<string>> {
    map w | w in idx.Keys + words :: (if w in idx then idx[w] else {}) + (if w in words then {doc} else {})
  }

  /** The inverted index: "idx:<word>" for every word, as a map from the word. */
  class Index {
    var idx: map<string, set<string>>

    constructor ()
      ensures idx == map[]
    {
      idx := map[];
    }

    /** index_document: SADD idx:<word> docid for every token; the reply count is the number of tokens. */
    method IndexDocument(doc: string, content: string) returns (n: nat)
      modifies this
      ensures idx == AddToWords(old(idx), Tokens(content), doc)
      ensures n == |Tokens(content)|
    {
      var words := Tokenize(content);
      n := AddToAll(words, doc);
    }

    /** The pipeline loop: one SADD per word, each answering with one reply. */
    method AddToAll(words: set<string>, doc: string) returns (replies: nat)
      modifies this
      ensures idx == AddToWords(old(idx), words, doc)
      ensures replies == |words|
    {
      var m, pending, done := idx, words, {};
      replies := 0;
      while pending != {}
        invariant done + pending == words && done !! pending
        invariant Indexed(m, old(idx), done, doc)
        invariant replies == |done|
        decreases |pending|
      {
        var w :| w in pending;
        IndexedStep(m, old(idx), done, w, doc);
        m := AddOne(m, w, doc);
        pending, done := pending - {w}, done + {w};
        replies := replies + 1;
      }
      assert done == words;
      AddToWordsPointwise(m, old(idx), words, doc);
      idx := m;
    }
  }

  /** SADD "idx:<w>" doc: the word's set gains the document. */
  function AddOne(m: map<string, set<string>>, w: string, doc: string): map<string, set<string>> {
    m[w := (if w in m then m[w] else {}) + {doc}]
  }

  /** `m` is `idx` with `doc` added to the sets of the words in `words`, stated key by key. */
  ghost predicate Indexed(m: map<string, set<string>>, idx: map<string, set<string>>, words: set<string>, doc: string) {
    && (forall x :: x in m <==> x in idx || x in words)
    && (forall x :: x in idx && x !in words ==> m[x] == idx[x])
    && (forall x :: x in words ==> m[x] == (if x in idx then idx[x] else {}) + {doc})
  }

  /** One more SADD extends the words done by one. */
  lemma IndexedStep(m: map<string, set<string>>, idx: map<string, set<string>>, done: set<string>, w: string, doc: string)
    requires Indexed(m, idx, done, doc) && w !in done
    ensures Indexed(AddOne(m, w, doc), idx, done + {w}, doc)
  {
  }

  /** A map that agrees with AddToWords key by key is AddToWords. */
  lemma AddToWordsPointwise(m: map<string, set<string>>, idx: map<string, set<string>>, words: set<string>, doc: string)
    requires Indexed(m, idx, words, doc)
    ensures m == AddToWords(idx, words, doc)
  {
    var r := AddToWords(idx, words, doc);
    assert m.Keys == r.Keys;
    forall x | x in m.Keys ensures m[x] == r[x] {
    }
  }

  /**
   * After indexing, the document is in the set of a word exactly when the word is one of its
   * tokens or the document was already there; the sets of other documents are untouched.
   */
  lemma AddToWordsSpec(idx: map<string, set<string>>, words: set<string>, doc: string, w: string, d: string)
    ensures var r := AddToWords(idx, words, doc);
      (doc in (if w in r then r[w] else {}) <==> w in words || (w in idx && doc in idx[w]))
    ensures var r := AddToWords(idx, words, doc);
      d != doc ==> (d in (if w in r then r[w] else {}) <==> w in idx && d in idx[w])
    ensures AddToWords(idx, words, doc).Keys == idx.Keys + words
  {
  }
}
