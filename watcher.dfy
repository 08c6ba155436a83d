/**
 * The poll loop of `main`: fetch the page, look for keywords, fingerprint
 * the text around them and notify when the fingerprint differs from the
 * last one recorded. The only state that survives a cycle is `last_digest`.
 *
 * The network is not modelled: each cycle is given what the fetch produced
 * (the text the HTML parser extracted and the page title, or a failure)
 * and what the webhook post did (it returned, with any status, or raised).
 */
module Watcher {
  import opened Text
  import opened Order
  import opened Lines
  import opened Matcher
  import opened Fingerprint
  import opened Notifier

  datatype Option<T> = None | Some(value: T)

  /** `URL`: the page being watched. */
  const Url := "https://tkslok.pl/category/aktualnosci/"

  /** `KEYWORDS`. */
  const Keywords: seq<string> := ["uprawnienia", "prowadz\U{0105}cego", "strzelanie", "kurs"]

  /** The result of `fetch_page_text`: the text the parser extracted, before
      line normalisation, and the page title; or an exception raised by the
      request, by `raise_for_status` or by the parser. */
  datatype Fetch = Fetched(rawText: string, title: string) | FetchFailed

  /** What `requests.post` did. A returned response ends the send normally
      whatever its status, because a failing status is caught and logged. */
  datatype Post = Returned(status: int) | Raised

  /** The inputs of one cycle. */
  datatype Poll = Poll(fetch: Fetch, post: Post)

  /** One call of `send_discord_notification`. */
  datatype Notification = Notification(webhook: string, payload: Payload)

  datatype Outcome =
    | Failed                                                         // exception before any send
    | NoMatch                                                        // no keyword on the page
    | Unchanged(digest: string)                                      // fingerprint seen before, skipped
    | Notified(notification: Notification, digest: string, status: int)  // sent, fingerprint recorded
    | SendRaised(notification: Notification, digest: string)        // the post raised, nothing recorded

  predicate Attempted(o: Outcome)
  {
    o.Notified? || o.SendRaised?
  }

  datatype Config = Config(keywords: set<string>, url: string, webhook: string, hash: string -> string)

  /** The body of the `while True` loop, from `last_digest` before the cycle
      to `last_digest` after it and what the cycle did. */
  function Step(cfg: Config, last: Option<string>, poll: Poll): (r: (Option<string>, Outcome))
    ensures Attempted(r.1) <==>
              && poll.fetch.Fetched?
              && FindMatches(NormalizeText(poll.fetch.rawText), cfg.keywords) != {}
              && last != Some(PageDigest(cfg, poll.fetch.rawText))
    ensures Attempted(r.1) ==> r.1.digest == PageDigest(cfg, poll.fetch.rawText)
    ensures r.0 != last <==> r.1.Notified?
    ensures r.1.Notified? <==> Attempted(r.1) && poll.post.Returned?
    ensures r.1.Notified? ==> r.0 == Some(r.1.digest)
  {
    match poll.fetch
    case FetchFailed => (last, Failed)
    case Fetched(rawText, title) =>
      var text := NormalizeText(rawText);
      var matches := FindMatches(text, cfg.keywords);
      if matches == {} then (last, NoMatch)
      else
        var digest := Digest(cfg.hash, text, cfg.keywords);
        if Some(digest) == last then (last, Unchanged(digest))
        else
          var n := Notification(cfg.webhook, BuildPayload(title, cfg.url, matches));
          match poll.post
          case Returned(status) => (Some(digest), Notified(n, digest, status))
          case Raised => (last, SendRaised(n, digest))
  }

  /** Cycles run one after the other. */
  function Run(cfg: Config, last: Option<string>, polls: seq<Poll>): (r: (Option<string>, seq<Outcome>))
    ensures |r.1| == |polls|
  {
    if polls == [] then (last, [])
    else
      var before := Run(cfg, last, polls[..|polls| - 1]);
      var after := Step(cfg, before.0, polls[|polls| - 1]);
      (after.0, before.1 + [after.1])
  }

  /** How many notifications the outcomes attempted. */
  function Attempts(outcomes: seq<Outcome>): nat
  {
    if outcomes == [] then 0
    else Attempts(outcomes[..|outcomes| - 1]) + (if Attempted(outcomes[|outcomes| - 1]) then 1 else 0)
  }

  /** The fingerprint a cycle computes for an extracted text. */
  function PageDigest(cfg: Config, rawText: string): string
  {
    Digest(cfg.hash, NormalizeText(rawText), cfg.keywords)
  }

  /** No keyword on the page: nothing is sent and nothing is recorded. */
  lemma NoMatchKeepsState(cfg: Config, last: Option<string>, poll: Poll)
    requires poll.fetch.Fetched?
    requires FindMatches(NormalizeText(poll.fetch.rawText), cfg.keywords) == {}
    ensures Step(cfg, last, poll) == (last, NoMatch)
  {
  }

  /** A fingerprint equal to the recorded one: nothing is sent. */
  lemma SameDigestSkips(cfg: Config, poll: Poll)
    requires poll.fetch.Fetched?
    requires FindMatches(NormalizeText(poll.fetch.rawText), cfg.keywords) != {}
    ensures var d := PageDigest(cfg, poll.fetch.rawText);
      Step(cfg, Some(d), poll) == (Some(d), Unchanged(d))
  {
  }

  /** A new fingerprint: one notification with the matched keywords; once the
      post returns, whatever its status, the fingerprint is recorded; if the
      post raises, the state is as before. */
  lemma NewDigestNotifies(cfg: Config, last: Option<string>, poll: Poll)
    requires poll.fetch.Fetched?
    requires FindMatches(NormalizeText(poll.fetch.rawText), cfg.keywords) != {}
    requires last != Some(PageDigest(cfg, poll.fetch.rawText))
    ensures var text := NormalizeText(poll.fetch.rawText);
      var d := PageDigest(cfg, poll.fetch.rawText);
      var n := Notification(cfg.webhook, BuildPayload(poll.fetch.title, cfg.url, FindMatches(text, cfg.keywords)));
      var r := Step(cfg, last, poll);
      && Attempted(r.1)
      && r.1.notification == n
      && (poll.post.Returned? ==> r == (Some(d), Notified(n, d, poll.post.status)))
      && (poll.post.Raised? ==> r == (last, SendRaised(n, d)))
  {
  }

  /** A failed fetch changes nothing and sends nothing. */
  lemma FailedFetchKeepsState(cfg: Config, last: Option<string>, post: Post)
    ensures Step(cfg, last, Poll(FetchFailed, post)) == (last, Failed)
  {
  }

  /** Two cycles over the same extracted text, the first of whose sends (if
      any) returns: the second cycle sends nothing. A non-2xx response in the
      first cycle does not make the second one send again. */
  lemma SecondCycleOnSameTextIsQuiet(cfg: Config, last: Option<string>, p1: Poll, p2: Poll)
    requires p1.fetch.Fetched? && p2.fetch.Fetched? && p1.fetch.rawText == p2.fetch.rawText
    requires p1.post.Returned?
    ensures !Attempted(Step(cfg, Step(cfg, last, p1).0, p2).1)
  {
    var text := NormalizeText(p1.fetch.rawText);
    if FindMatches(text, cfg.keywords) != {} {
      var d := PageDigest(cfg, p1.fetch.rawText);
      assert Step(cfg, last, p1).0 == Some(d);
      SameDigestSkips(cfg, p2);
    }
  }

  /** A send that raised leaves the fingerprint unrecorded, so the next cycle
      over the same text tries again. */
  lemma RaisedSendIsRetried(cfg: Config, last: Option<string>, p1: Poll, p2: Poll)
    requires p1.fetch.Fetched? && p2.fetch.Fetched? && p1.fetch.rawText == p2.fetch.rawText
    requires p1.post.Raised?
    requires Attempted(Step(cfg, last, p1).1)
    ensures Step(cfg, last, p1).0 == last
    ensures Attempted(Step(cfg, Step(cfg, last, p1).0, p2).1)
  {
  }

  /** Over any number of cycles that all see the same extracted text and whose
      sends all return, at most one notification is sent, and the state is
      the recorded fingerprint once it has been. */
  lemma {:induction false} RunOnSameText(cfg: Config, last: Option<string>, polls: seq<Poll>, rawText: string)
    requires forall i :: 0 <= i < |polls| ==>
               polls[i].fetch.Fetched? && polls[i].fetch.rawText == rawText && polls[i].post.Returned?
    ensures var r := Run(cfg, last, polls);
      || (Attempts(r.1) == 0 && r.0 == last)
      || (Attempts(r.1) == 1 && r.0 == Some(PageDigest(cfg, rawText)))
  {
    if polls != [] {
      var init := polls[..|polls| - 1];
      var p := polls[|polls| - 1];
      RunOnSameText(cfg, last, init, rawText);
      var before := Run(cfg, last, init);
      var after := Step(cfg, before.0, p);
      var outs := before.1 + [after.1];
      assert outs[..|outs| - 1] == before.1;
      if Attempts(before.1) == 1 && FindMatches(NormalizeText(rawText), cfg.keywords) != {} {
        SameDigestSkips(cfg, p);
      }
    }
  }

  lemma RunNotifiesAtMostOnce(cfg: Config, last: Option<string>, polls: seq<Poll>, rawText: string)
    requires forall i :: 0 <= i < |polls| ==>
               polls[i].fetch.Fetched? && polls[i].fetch.rawText == rawText && polls[i].post.Returned?
    ensures Attempts(Run(cfg, last, polls).1) <= 1
  {
    RunOnSameText(cfg, last, polls, rawText);
  }

  /** A single line that is already stripped is its own normalisation. */
  lemma NormalizeOneLine(line: string)
    requires line != [] && NoBreaks(line) && Stripped(line)
    ensures NormalizeText(line) == line
  {
    assert LineEnd(line, 0) == |line|;
    assert SplitLines(line) == [line];
    assert NormalizeLines([line]) == [line] by {
      NormalizeLinesFixed([line]);
    }
  }

  /** A one-line page that mentions the keyword "kurs" in capitals. */
  const KursPage := "Zapraszamy na KURS strzelania"

  lemma KursPageIsNormal()
    ensures NormalizeText(KursPage) == KursPage
  {
    NormalizeOneLine(KursPage);
  }

  lemma KursPageMatches()
    ensures FindMatches(KursPage, {"kurs"}) == {"kurs"}
  {
    assert KursPage == "Zapraszamy na " + "KURS" + " strzelania";
    MatchInsideWord("Zapraszamy na ", "KURS", " strzelania", "kurs", {"kurs"});
  }

  lemma SingleKeywordList(kw: string)
    ensures KeywordList({kw}) == kw
  {
    var keys := SortedKeys({kw});
    assert keys[0] in Elems(keys);
  }

  /** The first cycle on that page notifies, with "kurs" as the keyword
      list, and records the page's fingerprint. */
  lemma FirstRunNotifies(hash: string -> string, title: string)
    ensures var cfg := Config({"kurs"}, Url, "https://discord.example/hook", hash);
      var r := Step(cfg, None, Poll(Fetched(KursPage, title), Returned(204)));
      && r.1.Notified?
      && r.1.notification.payload.embeds[0].description == "kurs"
      && r.0 == Some(PageDigest(cfg, KursPage))
  {
    var cfg := Config({"kurs"}, Url, "https://discord.example/hook", hash);
    KursPageIsNormal();
    KursPageMatches();
    SingleKeywordList("kurs");
    NewDigestNotifies(cfg, None, Poll(Fetched(KursPage, title), Returned(204)));
  }

  /** The watcher of `main`, holding `last_digest`. */
  class Watcher {
    const keywords: set<string>
    const webhook: string
    const hash: string -> string
    var lastDigest: Option<string>

    function Cfg(): Config
    {
      Config(keywords, Url, webhook, hash)
    }

    /** `main` up to the loop: it stops at once without a webhook address. */
    constructor (webhook: string, hash: string -> string)
      requires webhook != ""
      ensures keywords == set kw | kw in Keywords
      ensures this.webhook == webhook && this.hash == hash
      ensures lastDigest == None
    {
      keywords := set kw | kw in Keywords;
      this.webhook := webhook;
      this.hash := hash;
      lastDigest := None;
    }

    /** One pass through the body of the `while True` loop. */
    method Cycle(poll: Poll) returns (outcome: Outcome)
      modifies this
      ensures (lastDigest, outcome) == Step(Cfg(), old(lastDigest), poll)
    {
      match poll.fetch {
        case FetchFailed =>
          outcome := Failed;
        case Fetched(rawText, title) =>
          var text := NormalizeText(rawText);
          var matches := FindMatches(text, keywords);
          if matches != {} {
            var digest := HashRelevant(text, keywords, hash);
            if Some(digest) != lastDigest {
              var n := Notification(webhook, BuildPayload(title, Url, matches));
              match poll.post {
                case Raised =>
                  outcome := SendRaised(n, digest);
                case Returned(status) =>
                  lastDigest := Some(digest);
                  outcome := Notified(n, digest, status);
              }
            } else {
              outcome := Unchanged(digest);
            }
          } else {
            outcome := NoMatch;
          }
      }
    }

    /** The loop of `main`, run for as many cycles as there are polls. */
    method Watch(polls: seq<Poll>) returns (outcomes: seq<Outcome>)
      modifies this
      ensures (lastDigest, outcomes) == Run(Cfg(), old(lastDigest), polls)
    {
      outcomes := [];
      for i := 0 to |polls|
        invariant (lastDigest, outcomes) == Run(Cfg(), old(lastDigest), polls[..i])
      {
        var outcome := Cycle(polls[i]);
        outcomes := outcomes + [outcome];
        assert polls[..i + 1][..i] == polls[..i];
      }
      assert polls[..|polls|] == polls;
    }
  }
}
