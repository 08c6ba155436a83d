/**
 * The message `send_discord_notification` posts to the webhook. The JSON
 * body is modelled by the datatypes below; serialising it and posting it
 * are not part of this model.
 */
module Notifier {
  import opened Text
  import opened Order

  datatype Embed = Embed(title: string, description: string, url: string)

  /** `allowed_mentions`: the kinds of mention Discord may expand. */
  datatype AllowedMentions = AllowedMentions(parse: seq<string>)

  datatype Payload = Payload(content: string, embeds: seq<Embed>, allowedMentions: AllowedMentions)

  const ContentIntro := "\U{1F514} The following keywords appeared on the website: "
  const TitleIntro := "\n\U{1F4C4} **"
  const LinkIntro := "**\n\U{1F517} "
  const EmbedTitle := "Keywords detected"

  /** `", ".join(sorted(matches))`. */
  function KeywordList(matches: set<string>): (r: string)
    ensures forall kw :: kw in matches ==> Contains(r, kw)
  {
    SortedJoinNamesAll(matches, ", ");
    Join(SortedKeys(matches), ", ")
  }

  /** Every element of a set appears in the join of its sorted elements. */
  lemma SortedJoinNamesAll(matches: set<string>, sep: string)
    ensures forall kw :: kw in matches ==> Contains(Join(SortedKeys(matches), sep), kw)
  {
    var keys := SortedKeys(matches);
    forall kw | kw in matches ensures Contains(Join(keys, sep), kw) {
      assert kw in Elems(keys);
      var k :| 0 <= k < |keys| && keys[k] == kw;
      JoinContainsParts(keys, sep, k);
    }
  }

  /** The payload built for the page `title` at `url` and the matched keywords. */
  function BuildPayload(title: string, url: string, matches: set<string>): (p: Payload)
    ensures |p.embeds| == 1
    ensures p.allowedMentions.parse == []
  {
    var list := KeywordList(matches);
    Payload(
      ContentIntro + list + TitleIntro + title + LinkIntro + url,
      [Embed(EmbedTitle, list, url)],
      AllowedMentions([]))
  }

  /** The keyword list in the message text and the embed's description are
      the same sorted list; the embed links to the page, which also ends the
      message text; nobody can be pinged. */
  lemma PayloadAgrees(title: string, url: string, matches: set<string>)
    ensures var p := BuildPayload(title, url, matches);
      var list := p.embeds[0].description;
      && list == KeywordList(matches)
      && p.content[..|ContentIntro|] == ContentIntro
      && p.content[|ContentIntro|..|ContentIntro| + |list|] == list
      && p.embeds[0].url == url
      && p.content[|p.content| - |url|..] == url
      && p.embeds[0].title == EmbedTitle
      && p.allowedMentions.parse == []
  {
    var p := BuildPayload(title, url, matches);
    var list := KeywordList(matches);
    assert p.content == ContentIntro + list + (TitleIntro + title + LinkIntro) + url;
  }

  /** Every matched keyword is named in the embed description, and so in the
      message text. */
  lemma PayloadNamesEveryMatch(title: string, url: string, matches: set<string>, kw: string)
    requires kw in matches
    ensures Contains(BuildPayload(title, url, matches).embeds[0].description, kw)
    ensures Contains(BuildPayload(title, url, matches).content, kw)
  {
    var list := KeywordList(matches);
    ContainsInfix(ContentIntro, list, TitleIntro + title + LinkIntro + url, kw);
    assert BuildPayload(title, url, matches).content
        == ContentIntro + list + (TitleIntro + title + LinkIntro + url);
  }
}
