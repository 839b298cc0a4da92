/** The commit-message classifier `is_good_commit_message` (User.py:8-26).

    A message is "good" when one of its words, after stemming, is the stem
    of one of eight action words. The stemmer (Porter's, from a foreign
    library) is a parameter `stem`, so every property proved here holds for
    every stemming function.
 */
module CommitClassifier {

  /** The positive action words, in the order the source lists them. */
  const Vocabulary: seq<string> :=
    ["fix", "optimize", "add", "test", "clean", "update", "refactor", "implement"]

  /** A character matched by the `\w` class (ASCII letters, digits, underscore). */
  predicate IsWordChar(c: char)
  {
    ('a' <= c <= 'z') || ('A' <= c <= 'Z') || ('0' <= c <= '9') || c == '_'
  }

  /** A non-empty string of word characters: what one `\w+` match can be. */
  predicate IsWord(t: string)
  {
    |t| > 0 && forall i :: 0 <= i < |t| ==> IsWordChar(t[i])
  }

  /** `str.lower()` on one character (ASCII upper-case letters only). */
  function LowerChar(c: char): char
  {
    if 'A' <= c <= 'Z' then (c as int - 'A' as int + 'a' as int) as char else c
  }

  /** `str.lower()`, character by character. */
  function ToLower(s: string): (r: string)
    ensures |r| == |s|
    ensures forall i :: 0 <= i < |s| ==> r[i] == LowerChar(s[i])
  {
    seq(|s|, i requires 0 <= i < |s| => LowerChar(s[i]))
  }

  /** Length of the longest prefix of `s` made of word characters. */
  function WordRunLength(s: string): (n: nat)
    ensures n <= |s|
    ensures forall i :: 0 <= i < n ==> IsWordChar(s[i])
    ensures n < |s| ==> !IsWordChar(s[n])
  {
    if s == [] || !IsWordChar(s[0]) then 0 else 1 + WordRunLength(s[1..])
  }

  /** `re.findall(r'\w+', s)`: the maximal runs of word characters, left to right. */
  function Tokens(s: string): (ts: seq<string>)
    ensures forall t :: t in ts ==> IsWord(t)
    decreases |s|
  {
    if s == [] then []
    else if !IsWordChar(s[0]) then Tokens(s[1..])
    else
      var n := WordRunLength(s);
      [s[..n]] + Tokens(s[n..])
  }

  /** The set `{ps.stem(word) for word in good_commit_bag_of_words}`. */
  function StemmedVocabulary(stem: string -> string): set<string>
  {
    set w | w in Vocabulary :: stem(w)
  }

  /** The classifier's meaning: some token of the lower-cased message has a
      stem that is the stem of a vocabulary word. */
  predicate IsGood(message: string, stem: string -> string)
  {
    exists t :: t in Tokens(ToLower(message)) && stem(t) in StemmedVocabulary(stem)
  }

  /** `is_good_commit_message`: scan the tokens, stop at the first whose stem
      is in the stemmed vocabulary. */
  method IsGoodCommitMessage(message: string, stem: string -> string) returns (good: bool)
    ensures good <==> IsGood(message, stem)
  {
    var stemmedWords := StemmedVocabulary(stem);
    var words := Tokens(ToLower(message));
    for k := 0 to |words|
      invariant forall j :: 0 <= j < k ==> stem(words[j]) !in stemmedWords
    {
      if stem(words[k]) in stemmedWords {
        return true;
      }
    }
    return false;
  }

  // ---------------------------------------------------------------------
  // Tokenisation lemmas

  /** A message has no tokens exactly when it has no word character. */
  lemma {:induction false} TokensEmptyIff(s: string)
    ensures Tokens(s) == [] <==> forall i :: 0 <= i < |s| ==> !IsWordChar(s[i])
    decreases |s|
  {
    if s != [] {
      if !IsWordChar(s[0]) {
        TokensEmptyIff(s[1..]);
        assert forall i :: 1 <= i < |s| ==> s[i] == s[1..][i - 1];
      }
    }
  }

  /** A non-word character ends the word run that starts before it. */
  lemma {:induction false} WordRunStopsAt(x: string, c: char, y: string)
    requires !IsWordChar(c)
    ensures WordRunLength(x + [c] + y) == WordRunLength(x)
    decreases |x|
  {
    if x != [] && IsWordChar(x[0]) {
      assert (x + [c] + y)[1..] == x[1..] + [c] + y;
      WordRunStopsAt(x[1..], c, y);
    }
  }

  /** Tokenising splits at a non-word character. */
  lemma {:induction false} TokensSplit(x: string, c: char, y: string)
    requires !IsWordChar(c)
    ensures Tokens(x + [c] + y) == Tokens(x) + Tokens(y)
    decreases |x|
  {
    var s := x + [c] + y;
    if x == [] {
      assert s == [c] + y;
      assert s[1..] == y;
    } else if !IsWordChar(x[0]) {
      assert s[1..] == x[1..] + [c] + y;
      TokensSplit(x[1..], c, y);
    } else {
      WordRunStopsAt(x, c, y);
      var n := WordRunLength(x);
      assert s[..n] == x[..n];
      assert s[n..] == x[n..] + [c] + y;
      TokensSplit(x[n..], c, y);
    }
  }

  /** A word on its own is its only token. */
  lemma TokensOfWord(w: string)
    requires IsWord(w)
    ensures Tokens(w) == [w]
  {
    assert WordRunLength(w) == |w|;
    assert w[..|w|] == w;
    assert w[|w|..] == [];
  }

  /** A word followed by the end of the string or by a non-word character
      is the first token. */
  lemma WordThenBoundary(w: string, b: string)
    requires IsWord(w)
    requires b == [] || !IsWordChar(b[0])
    ensures Tokens(w + b) == [w] + Tokens(b)
  {
    TokensOfWord(w);
    if b == [] {
      assert w + b == w;
    } else {
      assert w + b == w + [b[0]] + b[1..];
      TokensSplit(w, b[0], b[1..]);
      assert b == [b[0]] + b[1..];
      TokensSplit([], b[0], b[1..]);
      assert [] + [b[0]] + b[1..] == b;
    }
  }

  /** What follows a non-word character is tokenised on its own. */
  lemma BoundaryThenRest(a: string, t: string)
    requires a == [] || !IsWordChar(a[|a| - 1])
    ensures forall u :: u in Tokens(t) ==> u in Tokens(a + t)
  {
    if a == [] {
      assert a + t == t;
    } else {
      var a' := a[..|a| - 1];
      assert a + t == a' + [a[|a| - 1]] + t;
      TokensSplit(a', a[|a| - 1], t);
    }
  }

  /** A word delimited on both sides by the ends of the string or by non-word
      characters is one of its tokens. */
  lemma WordBetweenBoundariesIsToken(a: string, w: string, b: string)
    requires IsWord(w)
    requires a == [] || !IsWordChar(a[|a| - 1])
    requires b == [] || !IsWordChar(b[0])
    ensures w in Tokens(a + w + b)
  {
    WordThenBoundary(w, b);
    assert a + w + b == a + (w + b);
    BoundaryThenRest(a, w + b);
  }

  // ---------------------------------------------------------------------
  // Properties of the classifier

  /** Lower-casing keeps every character's word-character status. */
  lemma LowerKeepsWordChars(c: char)
    ensures IsWordChar(LowerChar(c)) == IsWordChar(c)
  {
  }

  /** A message without any word character (the empty message among them)
      is never good, whatever the stemmer. */
  lemma NoWordCharIsNotGood(message: string, stem: string -> string)
    requires forall i :: 0 <= i < |message| ==> !IsWordChar(message[i])
    ensures !IsGood(message, stem)
  {
    var lowered := ToLower(message);
    forall i | 0 <= i < |lowered| ensures !IsWordChar(lowered[i]) {
      LowerKeepsWordChars(message[i]);
    }
    TokensEmptyIff(lowered);
  }

  /** The empty message is not good. */
  lemma EmptyIsNotGood(stem: string -> string)
    ensures !IsGood("", stem)
  {
    NoWordCharIsNotGood("", stem);
  }

  /** Every vocabulary word is a single `\w+` token. */
  lemma VocabularyWordsAreWords()
    ensures forall v :: v in Vocabulary ==> IsWord(v)
  {
    forall v | v in Vocabulary ensures IsWord(v) {
      assert forall i :: 0 <= i < |v| ==> 'a' <= v[i] <= 'z';
    }
  }

  /** Lower-casing distributes over concatenation. */
  lemma ToLowerAppend(a: string, b: string)
    ensures ToLower(a + b) == ToLower(a) + ToLower(b)
  {
  }

  /** A message holding a vocabulary word (in any letter case) as a whole
      token is good, whatever the stemmer. */
  lemma VocabularyWordIsGood(message: string, a: string, w: string, b: string, stem: string -> string)
    requires message == a + w + b
    requires ToLower(w) in Vocabulary
    requires a == [] || !IsWordChar(a[|a| - 1])
    requires b == [] || !IsWordChar(b[0])
    ensures IsGood(message, stem)
  {
    var la, lw, lb := ToLower(a), ToLower(w), ToLower(b);
    VocabularyWordsAreWords();
    ToLowerAppend(a, w);
    ToLowerAppend(a + w, b);
    if a != [] {
      LowerKeepsWordChars(a[|a| - 1]);
    }
    if b != [] {
      LowerKeepsWordChars(b[0]);
    }
    WordBetweenBoundariesIsToken(la, lw, lb);
    assert ToLower(message) == la + lw + lb;
    assert stem(lw) in StemmedVocabulary(stem);
  }

  /** The stemmer that leaves every word as it is. */
  function Unstemmed(w: string): string
  {
    w
  }

  /** A message that starts with a vocabulary word, followed by the end or
      by a non-word character, is good, whatever the stemmer. */
  lemma LeadingVocabularyWordIsGood(w: string, rest: string, stem: string -> string)
    requires w in Vocabulary
    requires rest == [] || !IsWordChar(rest[0])
    ensures IsGood(w + rest, stem)
  {
    assert forall i :: 0 <= i < |w| ==> 'a' <= w[i] <= 'z';
    assert ToLower(w) == w;
    assert w + rest == [] + w + rest;
    VocabularyWordIsGood(w + rest, [], w, rest, stem);
  }

  /** With words left unstemmed, "fix bug" and "update readme" are good. */
  lemma ActionMessagesAreGood()
    ensures IsGood("fix bug", Unstemmed)
    ensures IsGood("update readme", Unstemmed)
  {
    assert "fix bug" == "fix" + " bug";
    LeadingVocabularyWordIsGood("fix", " bug", Unstemmed);
    assert "update readme" == "update" + " readme";
    LeadingVocabularyWordIsGood("update", " readme", Unstemmed);
  }

  /** With words left unstemmed, "merge" is not good. */
  lemma MergeIsNotGood()
    ensures !IsGood("merge", Unstemmed)
  {
    assert ToLower("merge") == "merge";
    TokensOfWord("merge");
    assert "merge" !in StemmedVocabulary(Unstemmed);
  }
}
