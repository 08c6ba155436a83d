/**
 * `hash_relevant`: the fingerprint of the text around the keywords.
 *
 * For every keyword, in sorted order, that occurs in the lowered text, two
 * fragments are appended: the lowered keyword and the text within `Radius`
 * characters of its first occurrence. The fragments are joined with "\n"
 * and hashed. SHA-256 is the parameter `hash`, about which nothing is
 * assumed.
 */
module Fingerprint {
  import opened Text
  import opened Order
  import opened Matcher

  /** How many characters the window extends on either side of a hit. */
  const Radius := 1000

  /** `start` and `end` of the window around the first occurrence of `kl`. */
  function Span(tl: string, kl: string): (span: (nat, nat))
    requires Contains(tl, kl)
    ensures var idx := IndexOf(tl, kl);
      && 0 <= span.0 <= idx
      && idx + |kl| <= span.1 <= |tl|
      && idx - Radius <= span.0
      && span.1 <= idx + |kl| + Radius
      && (span.0 == 0 || span.0 == idx - Radius)
      && (span.1 == |tl| || span.1 == idx + |kl| + Radius)
  {
    var idx := IndexOf(tl, kl);
    var start := if idx - Radius < 0 then 0 else idx - Radius;
    var end := if |tl| < idx + |kl| + Radius then |tl| else idx + |kl| + Radius;
    (start, end)
  }

  /** `text_lower[start:end]`: it holds the keyword at offset `idx - start`. */
  function Window(tl: string, kl: string): (w: string)
    requires Contains(tl, kl)
    ensures |w| <= |kl| + 2 * Radius
    ensures OccursAt(w, kl, IndexOf(tl, kl) - Span(tl, kl).0)
  {
    var span := Span(tl, kl);
    var idx := IndexOf(tl, kl);
    OccursInSlice(tl, kl, idx, span.0, span.1);
    tl[span.0..span.1]
  }

  /** The fragments one keyword contributes to the lowered text `tl`. */
  function KeywordFragments(tl: string, kw: string): (r: seq<string>)
    ensures |r| == 0 || |r| == 2
    ensures |r| == 2 ==> r[0] == Lower(kw) && Contains(r[1], Lower(kw))
  {
    var kl := Lower(kw);
    if Contains(tl, kl) then
      var w := Window(tl, kl);
      assert OccursAt(w, kl, IndexOf(tl, kl) - Span(tl, kl).0);
      [kl, w]
    else []
  }

  /** The `parts` list after the loop has visited `keys`. */
  function Fragments(tl: string, keys: seq<string>): (r: seq<string>)
    ensures |r| <= 2 * |keys|
  {
    if keys == [] then []
    else
      var before := Fragments(tl, keys[..|keys| - 1]);
      var last := KeywordFragments(tl, keys[|keys| - 1]);
      before + last
  }

  /** The string that is hashed. */
  function PreImage(text: string, keywords: set<string>): (r: string)
    ensures FindMatches(text, keywords) == {} ==> r == []
  {
    NoMatchNoFragments(text, keywords);
    Join(Fragments(Lower(text), SortedKeys(keywords)), "\n")
  }

  /** The fingerprint `hash_relevant` returns. */
  function Digest(hash: string -> string, text: string, keywords: set<string>): string
  {
    hash(PreImage(text, keywords))
  }

  /** With no keyword on the page, nothing is collected. */
  lemma NoMatchNoFragments(text: string, keywords: set<string>)
    ensures FindMatches(text, keywords) == {} ==> Fragments(Lower(text), SortedKeys(keywords)) == []
  {
    if FindMatches(text, keywords) == {} {
      var keys := SortedKeys(keywords);
      forall k | 0 <= k < |keys| ensures !Contains(Lower(text), Lower(keys[k])) {
        assert keys[k] in Elems(keys);
      }
      NoneOccurs(Lower(text), keys);
    }
  }

  lemma {:induction false} NoneOccurs(tl: string, keys: seq<string>)
    requires forall k :: 0 <= k < |keys| ==> !Contains(tl, Lower(keys[k]))
    ensures Fragments(tl, keys) == []
  {
    if keys != [] {
      NoneOccurs(tl, keys[..|keys| - 1]);
    }
  }

  /** `hash_relevant(text, keywords)`. */
  method HashRelevant(text: string, keywords: set<string>, hash: string -> string) returns (digest: string)
    ensures digest == Digest(hash, text, keywords)
  {
    var textLower := Lower(text);
    var parts := CollectFragments(textLower, SortedKeys(keywords));
    digest := hash(Join(parts, "\n"));
  }

  /** The loop of `hash_relevant` over the sorted keywords `keys`. */
  method CollectFragments(textLower: string, keys: seq<string>) returns (parts: seq<string>)
    ensures parts == Fragments(textLower, keys)
  {
    parts := [];
    for i := 0 to |keys|
      invariant parts == Fragments(textLower, keys[..i])
    {
      var kw := keys[i];
      var kwLower := Lower(kw);
      FragmentsNext(textLower, keys, i);
      ghost var before := parts;
      if Contains(textLower, kwLower) {
        parts := parts + [kwLower];
        var idx := IndexOf(textLower, kwLower);
        var start := if idx - Radius < 0 then 0 else idx - Radius;
        var end := if |textLower| < idx + |kwLower| + Radius then |textLower| else idx + |kwLower| + Radius;
        KeywordWindow(textLower, kw, idx, start, end);
        parts := parts + [textLower[start..end]];
        assert parts == before + [kwLower, textLower[start..end]];
      }
    }
    assert keys[..|keys|] == keys;
  }

  /** The fragments the loop body appends for a keyword that occurs. */
  lemma KeywordWindow(tl: string, kw: string, idx: int, start: int, end: int)
    requires Contains(tl, Lower(kw)) && idx == IndexOf(tl, Lower(kw))
    requires start == if idx - Radius < 0 then 0 else idx - Radius
    requires end == if |tl| < idx + |Lower(kw)| + Radius then |tl| else idx + |Lower(kw)| + Radius
    ensures 0 <= start <= end <= |tl|
    ensures KeywordFragments(tl, kw) == [Lower(kw), tl[start..end]]
  {
  }

  lemma FragmentsNext(tl: string, keys: seq<string>, i: nat)
    requires i < |keys|
    ensures Fragments(tl, keys[..i + 1]) == Fragments(tl, keys[..i]) + KeywordFragments(tl, keys[i])
  {
    assert keys[..i + 1][..i] == keys[..i];
  }

  lemma {:induction false} FragmentsAppend(tl: string, a: seq<string>, b: seq<string>)
    ensures Fragments(tl, a + b) == Fragments(tl, a) + Fragments(tl, b)
    decreases |b|
  {
    if b == [] {
      assert a + b == a;
    } else {
      var init := b[..|b| - 1];
      assert (a + b)[..|a + b| - 1] == a + init;
      FragmentsAppend(tl, a, init);
    }
  }

  /** Exactly two fragments per occurring keyword, the lowered keyword and
      then its window, in the order of `keys`; none for absent keywords. */
  lemma {:induction false} FragmentsShape(tl: string, keys: seq<string>, occurs: string -> bool)
    requires forall kw :: occurs(kw) == Contains(tl, Lower(kw))
    ensures var m := FilterKeys(keys, occurs);
      && |Fragments(tl, keys)| == 2 * |m|
      && forall j :: 0 <= j < |m| ==>
           && Contains(tl, Lower(m[j]))
           && Fragments(tl, keys)[2 * j] == Lower(m[j])
           && Fragments(tl, keys)[2 * j + 1] == Window(tl, Lower(m[j]))
  {
    if keys != [] {
      var init := keys[..|keys| - 1];
      FragmentsShape(tl, init, occurs);
    }
  }

  /** Keywords that do not occur contribute nothing. */
  lemma {:induction false} FragmentsOfOccurring(tl: string, keys: seq<string>, occurs: string -> bool)
    requires forall kw :: occurs(kw) == Contains(tl, Lower(kw))
    ensures Fragments(tl, FilterKeys(keys, occurs)) == Fragments(tl, keys)
  {
    if keys != [] {
      var init := keys[..|keys| - 1];
      var last := keys[|keys| - 1];
      FragmentsOfOccurring(tl, init, occurs);
      var kept := if occurs(last) then [last] else [];
      FragmentsAppend(tl, FilterKeys(init, occurs), kept);
      if occurs(last) {
        assert kept[..0] == [];
      }
    }
  }

  /** Hashing over all configured keywords, as the watcher does, gives the
      same pre-image as hashing over the keywords that matched. */
  lemma PreImageOfMatchSet(text: string, keywords: set<string>)
    ensures PreImage(text, keywords) == PreImage(text, FindMatches(text, keywords))
  {
    var tl := Lower(text);
    var occurs := kw => Contains(tl, Lower(kw));
    forall kw ensures occurs(kw) == Contains(tl, Lower(kw)) {
    }
    MatchSetIsFilter(text, keywords, occurs);
    SortedFilter(keywords, occurs);
    FragmentsOfOccurring(tl, SortedKeys(keywords), occurs);
  }

  lemma MatchSetIsFilter(text: string, keywords: set<string>, occurs: string -> bool)
    requires forall kw :: occurs(kw) == Contains(Lower(text), Lower(kw))
    ensures (set x | x in keywords && occurs(x)) == FindMatches(text, keywords)
  {
  }

  /** Two texts in which the same keywords occur, each with the same window
      around its first occurrence, give the same fragments. */
  lemma {:induction false} SameWindowsSameFragments(t1: string, t2: string, keys: seq<string>)
    requires forall kw :: kw in keys ==> (Contains(t1, Lower(kw)) <==> Contains(t2, Lower(kw)))
    requires forall kw :: kw in keys && Contains(t1, Lower(kw)) && Contains(t2, Lower(kw)) ==>
               Window(t1, Lower(kw)) == Window(t2, Lower(kw))
    ensures Fragments(t1, keys) == Fragments(t2, keys)
  {
    if keys != [] {
      var init := keys[..|keys| - 1];
      assert keys[|keys| - 1] in keys;
      SameWindowsSameFragments(t1, t2, init);
    }
  }

  /** The digest depends only on the keyword set and the windows around the
      keywords' first occurrences. */
  lemma SameWindowsSameDigest(hash: string -> string, text1: string, text2: string, keywords: set<string>)
    requires forall kw :: kw in keywords ==>
               (Contains(Lower(text1), Lower(kw)) <==> Contains(Lower(text2), Lower(kw)))
    requires forall kw :: kw in keywords && Contains(Lower(text1), Lower(kw)) && Contains(Lower(text2), Lower(kw)) ==>
               Window(Lower(text1), Lower(kw)) == Window(Lower(text2), Lower(kw))
    ensures Digest(hash, text1, keywords) == Digest(hash, text2, keywords)
  {
    SameWindowsSameFragments(Lower(text1), Lower(text2), SortedKeys(keywords));
  }

  /** Text appended more than `Radius` characters after the first occurrence
      of every matched keyword, and introducing no new keyword, does not
      change the digest. */
  lemma AppendFarAwaySameDigest(hash: string -> string, text: string, extra: string, keywords: set<string>)
    requires forall kw :: kw in keywords && Contains(Lower(text + extra), Lower(kw)) ==>
               Contains(Lower(text), Lower(kw))
    requires forall kw :: kw in keywords && Contains(Lower(text), Lower(kw)) ==>
               IndexOf(Lower(text), Lower(kw)) + |kw| + Radius <= |text|
    ensures Digest(hash, text + extra, keywords) == Digest(hash, text, keywords)
  {
    var t1 := Lower(text + extra);
    var t2 := Lower(text);
    LowerAppend(text, extra);
    forall kw | kw in keywords && Contains(t2, Lower(kw))
      ensures Contains(t1, Lower(kw)) && Window(t1, Lower(kw)) == Window(t2, Lower(kw))
    {
      WindowAppend(t2, Lower(extra), Lower(kw));
    }
    SameWindowsSameDigest(hash, text + extra, text, keywords);
  }

  /** Text appended beyond the window of the first occurrence of `kl` leaves
      that window as it is. */
  lemma WindowAppend(t: string, extra: string, kl: string)
    requires Contains(t, kl) && IndexOf(t, kl) + |kl| + Radius <= |t|
    ensures Contains(t + extra, kl) && Window(t + extra, kl) == Window(t, kl)
  {
    IndexOfAppend(t, extra, kl);
    var span := Span(t, kl);
    assert Span(t + extra, kl) == span;
    assert (t + extra)[span.0..span.1] == t[span.0..span.1];
  }
}
