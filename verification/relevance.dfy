/** The relevance filter: an entry is kept when its text mentions an active
    keyword and passes a crude "is this English" test that looks for common
    function words (automation_news_daily.py, `_is_related_to_automation`). */
module Relevance {
  import opened Wrappers
  import opened Text

  /** Function words whose space-delimited presence suggests English text. */
  const EnglishMarkers: seq<string> :=
    ["the", "and", "is", "in", "to", "of", "for", "a", "with", "that"]

  /** At least this many distinct markers must be present. */
  const MinMarkers: nat := 2

  /** The keywords used when the digest is built without its own list. */
  const DefaultKeywords: seq<string> := [
    "workflow automation", "process automation", "digital automation",
    "robotic process automation", "rpa", "hyperautomation",
    "no-code automation", "low-code", "business process automation",
    "intelligent automation", "document automation", "task automation",
    "ai automation", "digital twins", "automation tools", "agentic",
    "ai agent", "automation platform", "workflow management",
    "automation", "automate", "automated", "automating",
    "productivity automation", "office automation", "email automation",
    "data automation", "automation software", "citizen developer"
  ]

  /** The keyword list a digest filters with: the caller's list when it is
      given and non-empty, the defaults otherwise. */
  function ActiveKeywords(keywords: Option<seq<string>>): (r: seq<string>)
    ensures |r| > 0
    ensures keywords.Some? && |keywords.value| > 0 ==> r == keywords.value
    ensures keywords.None? || |keywords.value| == 0 ==> r == DefaultKeywords
  {
    match keywords
    case Some(ks) => if |ks| > 0 then ks else DefaultKeywords
    case None => DefaultKeywords
  }

  /** The lower-cased text the filter inspects: title, a space, description. */
  function CheckedText(title: string, description: string): string {
    Lower(title + " " + description)
  }

  /** `word` appears as a whole space-delimited token of `text`, where the
      text is padded with one space on either side. */
  predicate MarkerFound(word: string, text: string) {
    Contains(" " + word + " ", " " + text + " ")
  }

  /** How many of `words` are found in `text`. */
  function CountMarkers(words: seq<string>, text: string): (n: nat)
    ensures n <= |words|
  {
    if |words| == 0 then 0
    else (if MarkerFound(words[0], text) then 1 else 0) + CountMarkers(words[1..], text)
  }

  predicate IsEnglish(text: string) {
    CountMarkers(EnglishMarkers, text) >= MinMarkers
  }

  /** Some keyword, lower-cased, is a substring of `text`. */
  predicate MentionsKeyword(text: string, keywords: seq<string>) {
    exists k :: k in keywords && Contains(Lower(k), text)
  }

  /** The verdict of `_is_related_to_automation`. */
  predicate IsRelated(title: string, description: string, keywords: seq<string>): (b: bool)
    ensures |keywords| == 0 ==> !b
  {
    var text := CheckedText(title, description);
    MentionsKeyword(text, keywords) && IsEnglish(text)
  }

  /** At least two words are counted exactly when two different positions of
      the word list are found. */
  lemma {:induction false} CountAtLeastTwo(words: seq<string>, text: string)
    ensures CountMarkers(words, text) >= 2 <==>
      exists i, j :: 0 <= i < j < |words| && MarkerFound(words[i], text) && MarkerFound(words[j], text)
    decreases |words|
  {
    if |words| > 0 {
      CountAtLeastTwo(words[1..], text);
      CountPositive(words[1..], text);
      var tail := words[1..];
      if exists i, j :: 0 <= i < j < |tail| && MarkerFound(tail[i], text) && MarkerFound(tail[j], text) {
        var i, j :| 0 <= i < j < |tail| && MarkerFound(tail[i], text) && MarkerFound(tail[j], text);
        assert MarkerFound(words[i + 1], text) && MarkerFound(words[j + 1], text);
      }
      if MarkerFound(words[0], text) && CountMarkers(tail, text) >= 1 {
        var j :| 0 <= j < |tail| && MarkerFound(tail[j], text);
        assert MarkerFound(words[j + 1], text);
      }
      if exists i, j :: 0 <= i < j < |words| && MarkerFound(words[i], text) && MarkerFound(words[j], text) {
        var i, j :| 0 <= i < j < |words| && MarkerFound(words[i], text) && MarkerFound(words[j], text);
        assert MarkerFound(tail[j - 1], text);
        if i > 0 {
          assert MarkerFound(tail[i - 1], text);
        }
      }
    }
  }

  /** At least one word is counted exactly when one is found. */
  lemma {:induction false} CountPositive(words: seq<string>, text: string)
    ensures CountMarkers(words, text) >= 1 <==> exists i :: 0 <= i < |words| && MarkerFound(words[i], text)
    decreases |words|
  {
    if |words| > 0 {
      CountPositive(words[1..], text);
      if exists i :: 0 <= i < |words[1..]| && MarkerFound(words[1..][i], text) {
        var i :| 0 <= i < |words[1..]| && MarkerFound(words[1..][i], text);
        assert MarkerFound(words[i + 1], text);
      }
      if exists i :: 0 <= i < |words| && MarkerFound(words[i], text) {
        var i :| 0 <= i < |words| && MarkerFound(words[i], text);
        if i > 0 {
          assert MarkerFound(words[1..][i - 1], text);
        }
      }
    }
  }

  /** The filter accepts exactly when two distinct English markers occur as
      space-delimited words and some lower-cased keyword is a substring. */
  lemma IsRelatedIff(title: string, description: string, keywords: seq<string>)
    ensures IsRelated(title, description, keywords) <==>
      var text := Lower(title + " " + description);
      && (exists i, j :: 0 <= i < j < |EnglishMarkers|
            && Contains(" " + EnglishMarkers[i] + " ", " " + text + " ")
            && Contains(" " + EnglishMarkers[j] + " ", " " + text + " "))
      && (exists k :: k in keywords && Contains(Lower(k), text))
  {
    CountAtLeastTwo(EnglishMarkers, CheckedText(title, description));
  }

  /** The verdict ignores the letter case of title and description. */
  lemma CaseInsensitive(title: string, description: string, keywords: seq<string>)
    ensures IsRelated(Lower(title), Lower(description), keywords) == IsRelated(title, description, keywords)
  {
    LowerAppend(title, " ");
    LowerAppend(title + " ", description);
    LowerAppend(Lower(title), " ");
    LowerAppend(Lower(title) + " ", Lower(description));
    LowerIdempotent(title);
    LowerIdempotent(description);
    assert Lower(" ") == " ";
    assert CheckedText(Lower(title), Lower(description)) == CheckedText(title, description);
  }

  /** The verdict ignores the letter case of the keywords. */
  lemma KeywordCaseInsensitive(title: string, description: string, keywords: seq<string>)
    ensures IsRelated(title, description, seq(|keywords|, i requires 0 <= i < |keywords| => Lower(keywords[i])))
         == IsRelated(title, description, keywords)
  {
    var lowered := seq(|keywords|, i requires 0 <= i < |keywords| => Lower(keywords[i]));
    var text := CheckedText(title, description);
    if MentionsKeyword(text, keywords) {
      var k :| k in keywords && Contains(Lower(k), text);
      var i :| 0 <= i < |keywords| && keywords[i] == k;
      LowerIdempotent(k);
      assert lowered[i] in lowered && Contains(Lower(lowered[i]), text);
    }
    if MentionsKeyword(text, lowered) {
      var k :| k in lowered && Contains(Lower(k), text);
      var i :| 0 <= i < |lowered| && lowered[i] == k;
      LowerIdempotent(keywords[i]);
      assert keywords[i] in keywords && Contains(Lower(keywords[i]), text);
    }
  }

  /** A found marker whose first letter is a lower-case ASCII letter puts
      such a letter into the padded text. */
  lemma MarkerNeedsLetter(word: string, text: string)
    requires |word| > 0 && IsLower(word[0]) && MarkerFound(word, text)
    ensures exists k :: 0 <= k < |" " + text + " "| && IsLower((" " + text + " ")[k])
  {
    ContainsChars(" " + word + " ", " " + text + " ");
    assert (" " + word + " ")[1] == word[0];
  }

  /** No marker is found in text without ASCII letters, so such text is never
      taken for English, whatever keywords it matches. */
  lemma NonLatinIsRejected(title: string, description: string, keywords: seq<string>)
    requires forall c :: c in title + " " + description ==> !IsAsciiLetter(c)
    ensures !IsRelated(title, description, keywords)
  {
    var raw := title + " " + description;
    var text := CheckedText(title, description);
    var padded := " " + text + " ";
    forall k | 0 <= k < |padded| ensures !IsLower(padded[k]) {
      if 0 < k < |padded| - 1 {
        assert padded[k] == LowerChar(raw[k - 1]);
        assert raw[k - 1] in raw;
      }
    }
    forall i | 0 <= i < |EnglishMarkers| ensures !MarkerFound(EnglishMarkers[i], text) {
      assert IsLower(EnglishMarkers[i][0]);
      if MarkerFound(EnglishMarkers[i], text) {
        MarkerNeedsLetter(EnglishMarkers[i], text);
        assert false;
      }
    }
    CountAtLeastTwo(EnglishMarkers, text);
  }

  /** A Japanese headline is rejected whatever the keywords. */
  lemma RejectsJapaneseHeadline(keywords: seq<string>)
    ensures !IsRelated("自動化ツール", "", keywords)
  {
    NonLatinIsRejected("自動化ツール", "", keywords);
  }
}
