/**
 * `find_matches`: which configured keywords occur in the page text,
 * ignoring case and word boundaries.
 */
module Matcher {
  import opened Text

  /** `{kw for kw in keywords if kw.lower() in text.lower()}`. */
  function FindMatches(text: string, keywords: set<string>): (matched: set<string>)
    ensures matched <= keywords
    ensures forall kw :: kw in keywords ==>
              (kw in matched <==> exists i: nat :: OccursAt(Lower(text), Lower(kw), i))
  {
    set kw | kw in keywords && Contains(Lower(text), Lower(kw))
  }

  /** Matching does not respect word boundaries: a keyword written inside a
      longer word, in any letter case, is a match. */
  lemma MatchInsideWord(before: string, word: string, after: string, kw: string, keywords: set<string>)
    requires kw in keywords && Lower(word) == Lower(kw)
    ensures kw in FindMatches(before + word + after, keywords)
  {
    var text := before + word + after;
    LowerAppend(before + word, after);
    LowerAppend(before, word);
    var lt := Lower(text);
    var i := |before|;
    assert lt[i..i + |word|] == Lower(kw);
    assert OccursAt(lt, Lower(kw), i);
  }

  /** "kurs" matches the page text "Nowy kursant". */
  lemma KursantExample()
    ensures FindMatches("Nowy kursant", {"kurs"}) == {"kurs"}
  {
    assert "Nowy kursant" == "Nowy " + "kurs" + "ant";
    MatchInsideWord("Nowy ", "kurs", "ant", "kurs", {"kurs"});
  }

  lemma LowerCharIdempotent(c: char)
    ensures LowerChar(LowerChar(c)) == LowerChar(c)
  {
  }

  /** Lowering the text first changes nothing: matching already ignores case. */
  lemma MatchIgnoresCase(text: string, keywords: set<string>)
    ensures FindMatches(Lower(text), keywords) == FindMatches(text, keywords)
  {
    forall i | 0 <= i < |text| ensures Lower(Lower(text))[i] == Lower(text)[i] {
      LowerCharIdempotent(text[i]);
    }
    assert Lower(Lower(text)) == Lower(text);
  }
}
