# tkslok-watcher: change detection, modelled in Dafny

`watcher.py` polls one news page. On each cycle it does the following:

1. It extracts the page text and normalises its lines.
2. It looks for the configured keywords, ignoring case and word boundaries.
3. If any keyword matches, it fingerprints the text around the keywords. The fingerprint is a SHA-256 of, for each keyword in sorted order that occurs, the lowered keyword and a window of up to 1000 characters either side of its first occurrence, clamped to the text, joined with "\n".
4. It posts a Discord message when that fingerprint differs from the last one recorded.

The fingerprint from the previous cycle (`last_digest`) is the only state carried between cycles.

The model has these modules:

- `Text`: Python's `str.lower()`, `p in s`, `s.find(p)` and `sep.join(parts)`.
- `Order`: Python's string order, and `sorted()` of a set of keywords (`SortedKeys`).
- `Lines`: the line normalisation that ends `fetch_page_text`, meaning `splitlines`, `strip`, dropping blank lines and joining.
- `Matcher`: `find_matches`.
- `Fingerprint`: `hash_relevant`, as an imperative method with the same `for` loop, proved against the function `Digest`.
- `Notifier`: the JSON payload of `send_discord_notification`.
- `Watcher`: one pass of the body of `main`'s loop.
  - `Step` is the pure transition of `last_digest`.
  - `Run` applies a sequence of such passes.
  - The class `Watcher` holds `lastDigest` as a field that `Cycle` and `Watch` update in place.

The network, the HTML parser and SHA-256 are outside the model:

- Each cycle is given a `Poll`, which carries two things. The first is the fetch result: the text the HTML parser extracted and the page title, or a failure. The second is what the webhook post did: it returned with some HTTP status, or it raised.
- SHA-256 is the parameter `hash: string -> string`, and nothing is assumed about it. Every fingerprint property is therefore proved about the string that is hashed (`PreImage`), or follows from equal pre-images.

A non-2xx webhook answer is not retried:

- `send_discord_notification` catches the `HTTPError` from `raise_for_status` and returns normally (watcher.py:119-123).
- `main` then records the digest (watcher.py:143-144).

So after a non-2xx answer the same content is not notified again. `Step` models this: any `Returned(status)` records the digest. `SecondCycleOnSameTextIsQuiet` proves that the following cycle on the same text sends nothing. Only a post that raises, such as a connection error or a timeout, leaves the digest unrecorded (`RaisedSendIsRetried`).

## Model

| member | source | states |
|---|---|---|
| Text.LowerChar | watcher.py:77-78 | capital ASCII letters are lowered by 32 code points; other characters below U+00C0 are unchanged |
| Text.Lower | watcher.py:77-78 | `lower()` keeps the length and maps each character by `LowerChar` |
| Text.LowerAppend | watcher.py:77-78 | lowering a concatenation is the concatenation of the lowered parts |
| Text.Contains | watcher.py:78 | Python's `p in s`: some index at which `p` occurs in `s` |
| Text.ContainsBasics | watcher.py:78 | the empty string is in every string; nothing longer than `s` is in `s` |
| Text.IndexFrom | watcher.py:92 | the search from `i` gives either -1 with no occurrence at or after `i`, or the first occurrence at or after `i` |
| Text.IndexOf | watcher.py:92 | `find` gives -1 exactly when the keyword does not occur; otherwise an occurrence with none before it |
| Text.IndexOfAppend | watcher.py:92 | appending text keeps an existing first occurrence where it is |
| Text.ContainsInfix | watcher.py:78 | a substring of the middle part is a substring of the whole |
| Text.OccursInSlice | watcher.py:95 | an occurrence inside a slice's bounds is an occurrence in the slice, shifted by the slice's start |
| Text.Join | watcher.py:96 | Python's `sep.join(parts)`: the parts with `sep` between consecutive ones |
| Text.JoinLength | watcher.py:72 | a join is at least as long as its first part, so a join whose first part is non-empty is non-empty |
| Text.JoinContainsParts | watcher.py:102 | every part of a join is a substring of the joined string |
| Order.Less | watcher.py:87 | Python's `<` on `str`, code point by code point with a proper prefix first; it never holds between equal strings |
| Order.LessIrreflexive | watcher.py:87 | no string sorts before itself |
| Order.LessAsymmetric | watcher.py:87 | two strings are never each before the other |
| Order.LessTransitive | watcher.py:87 | Python's string order is transitive |
| Order.LessTotal | watcher.py:87 | any two distinct strings are ordered one way or the other |
| Order.LeastExists | watcher.py:87 | a non-empty keyword set has a least element |
| Order.LeastUnique | watcher.py:87 | the least element is unique |
| Order.SortedKeys | watcher.py:87 | `sorted(keywords)` is strictly increasing and holds exactly the set's elements, once each |
| Order.LeastFirst | watcher.py:87 | the least element followed by the sorted rest is the sorted set |
| Order.StrictlySortedUnique | watcher.py:87 | two strictly increasing sequences with the same elements are equal, so `sorted` does not depend on set iteration order |
| Order.ElemsEmpty | watcher.py:87 | a sequence has no elements exactly when it is empty |
| Order.TailElems | watcher.py:87 | dropping the head of a strictly increasing sequence removes exactly that element |
| Order.FilterKeysSorted | watcher.py:87-89 | filtering a strictly increasing sequence keeps it strictly increasing, with exactly the elements that pass |
| Order.SortedFilter | watcher.py:87-89 | filtering the sorted keywords equals sorting the filtered keyword set |
| Lines.IsSpace | watcher.py:72 | the characters `str.strip()` removes, Python's `str.isspace()` set |
| Lines.IsLineBreak | watcher.py:72 | the characters at which `str.splitlines()` ends a line |
| Lines.LineBreakIsSpace | watcher.py:72 | every line boundary is whitespace |
| Lines.StripLeft | watcher.py:72 | `lstrip` removes a whitespace prefix and nothing else; the result does not start with whitespace |
| Lines.StripRight | watcher.py:72 | `rstrip` removes a whitespace suffix and nothing else; the result does not end with whitespace |
| Lines.Strip | watcher.py:72 | `strip` gives a stripped string; it is empty exactly for blank lines; it leaves stripped strings alone and adds no line break |
| Lines.StripRemovesOnlyEnds | watcher.py:72 | `strip` returns a slice `s[a..b]` of its input, with only whitespace before `a` and after `b` |
| Lines.LineEnd | watcher.py:72 | the index where a line ends is the first line boundary at or after the start, or the end of the text |
| Lines.SplitLines | watcher.py:72 | `splitlines` gives no lines exactly for the empty text, and no line contains a line boundary |
| Lines.SplitLinesStep | watcher.py:72 | the lines of a non-empty text are its first line, then the lines after the first boundary, where "\r\n" is one boundary |
| Lines.JoinSplitLines | watcher.py:72 | a text whose only boundaries are "\n" and which does not end with one is the "\n"-join of its lines, empty lines included |
| Lines.BoundaryIsSpace | watcher.py:72 | a line boundary, one or two characters wide, is whitespace |
| Lines.AllSpaceSplit | watcher.py:72 | a text is blank exactly when each of three consecutive pieces of it is blank |
| Lines.AllBlankCons | watcher.py:72 | a list of lines is all blank exactly when its first line and the rest are |
| Lines.SplitLinesBlank | watcher.py:72 | every line of a text is blank exactly when the text is blank |
| Lines.NormalizeLinesBlank | watcher.py:72 | normalisation drops every line exactly when every line is blank |
| Lines.KeepLine | watcher.py:72 | a line yields nothing when blank, otherwise one non-empty stripped line |
| Lines.NormalizeLines | watcher.py:72 | no more lines come out than go in; each is non-empty and stripped |
| Lines.NormalizeText | watcher.py:72 | the normalised text is empty exactly when the extracted text is all whitespace |
| Lines.NormalizeLinesAppend | watcher.py:72 | normalisation works line by line and keeps the order of the surviving lines |
| Lines.NormalizeLine | watcher.py:72 | a single line survives, stripped, exactly when it is not blank |
| Lines.NormalizeLinesFixed | watcher.py:72 | non-empty stripped lines are left as they are |
| Lines.SplitJoin | watcher.py:72 | splitting a "\n"-join of non-empty lines without boundaries gives the lines back |
| Lines.NormalizeLinesNoBreaks | watcher.py:72 | normalisation introduces no line boundary |
| Lines.NormalizedTextLines | watcher.py:72 | the lines of the normalised text are exactly the normalised lines |
| Lines.NormalizedTextShape | watcher.py:72 | every line of the normalised text is non-empty and stripped |
| Lines.NormalizeTextIdempotent | watcher.py:72 | normalising a normalised text changes nothing |
| Matcher.FindMatches | watcher.py:76-79 | matches are a subset of the keywords; a keyword matches exactly when its lowered form occurs somewhere in the lowered text |
| Matcher.MatchInsideWord | watcher.py:78 | a keyword written inside a longer word, in any case, matches |
| Matcher.KursantExample | watcher.py:78 | "kurs" matches "Nowy kursant" |
| Matcher.LowerCharIdempotent | watcher.py:77-78 | lowering a lowered character changes nothing |
| Matcher.MatchIgnoresCase | watcher.py:77-78 | lowering the text first does not change the matches |
| Fingerprint.Span | watcher.py:92-94 | the window starts at most 1000 characters before the first occurrence, and at 0 only when it would start before the text; it ends at most 1000 characters after the keyword, and at the text's end only when it would end past it |
| Fingerprint.Window | watcher.py:95 | the window holds the keyword at the offset of its first occurrence, and is at most the keyword plus 2000 characters long |
| Fingerprint.KeywordFragments | watcher.py:88-95 | one keyword contributes no fragment or two: its lowered form, then a window that contains it |
| Fingerprint.Fragments | watcher.py:86-95 | `parts` after visiting `keys`: at most two fragments per key |
| Fingerprint.PreImage | watcher.py:96 | the string that is hashed; it is empty when no keyword matches |
| Fingerprint.NoMatchNoFragments | watcher.py:87-95 | with no keyword on the page the loop collects nothing |
| Fingerprint.NoneOccurs | watcher.py:87-95 | keys none of which occurs give no fragments |
| Fingerprint.Digest | watcher.py:96 | the SHA-256 of the pre-image, with SHA-256 as the parameter `hash` |
| Fingerprint.HashRelevant | watcher.py:82-97 | the digest is the hash of the pre-image over the sorted keywords |
| Fingerprint.CollectFragments | watcher.py:86-95 | after the loop, `parts` holds the fragments of every key that occurs, in key order |
| Fingerprint.KeywordWindow | watcher.py:89-95 | the body's `start` and `end` lie within the text and give the keyword's two fragments |
| Fingerprint.FragmentsNext | watcher.py:87-95 | one more loop iteration appends that keyword's fragments |
| Fingerprint.FragmentsAppend | watcher.py:87-95 | the fragments of a concatenation of key lists are the concatenation of their fragments |
| Fingerprint.FragmentsShape | watcher.py:87-95 | there are exactly two fragments per occurring keyword, in sorted order: the lowered keyword, then its window |
| Fingerprint.FragmentsOfOccurring | watcher.py:87-95 | keywords that do not occur contribute nothing |
| Fingerprint.MatchSetIsFilter | watcher.py:76-79 | the match set is the configured set filtered by occurrence in the lowered text |
| Fingerprint.PreImageOfMatchSet | watcher.py:140 | hashing over all configured keywords, as `main` does, gives the same pre-image as hashing over the matched keywords |
| Fingerprint.SameWindowsSameFragments | watcher.py:87-95 | texts with the same occurring keywords and the same windows give the same fragments |
| Fingerprint.SameWindowsSameDigest | watcher.py:82-97 | the digest depends only on which keywords occur and on their windows |
| Fingerprint.WindowAppend | watcher.py:92-95 | text appended beyond a window leaves the window unchanged |
| Fingerprint.AppendFarAwaySameDigest | watcher.py:82-97 | appending text more than 1000 characters past every first occurrence, with no new keyword, keeps the digest |
| Notifier.KeywordList | watcher.py:102 | `", ".join(sorted(matches))` names every matched keyword |
| Notifier.SortedJoinNamesAll | watcher.py:102 | every element of a set appears in any join of its sorted elements |
| Notifier.BuildPayload | watcher.py:100-117 | the payload has one embed and an empty `parse` list |
| Notifier.PayloadAgrees | watcher.py:101-117 | the content's keyword list and the embed description are the same sorted join; the embed links to the page, whose URL also ends the content; the embed title is fixed; nobody can be pinged |
| Notifier.PayloadNamesEveryMatch | watcher.py:101-113 | every matched keyword appears in the embed description and in the message content |
| Watcher.Step | watcher.py:136-150 | a send is attempted exactly when the fetch succeeded, a keyword matched and the digest differs from the recorded one; the state changes exactly when a send returned, and becomes that digest |
| Watcher.PageDigest | watcher.py:140 | the digest a cycle computes: `hash_relevant` over the normalised text and all configured keywords |
| Watcher.Run | watcher.py:135-152 | one outcome per cycle |
| Watcher.NoMatchKeepsState | watcher.py:139-148 | with no match, nothing is sent and nothing is recorded |
| Watcher.SameDigestSkips | watcher.py:141-146 | a digest equal to the recorded one is skipped |
| Watcher.NewDigestNotifies | watcher.py:141-144 | a new digest sends one notification with the matches; a returned post records the digest whatever the status; a raised post records nothing |
| Watcher.FailedFetchKeepsState | watcher.py:136-150 | a failed fetch changes nothing |
| Watcher.SecondCycleOnSameTextIsQuiet | watcher.py:118-123 | after a returned post, even a non-2xx one, the next cycle on the same text sends nothing |
| Watcher.RaisedSendIsRetried | watcher.py:136-150 | a post that raised leaves the state as it was, and the next cycle on the same text sends again |
| Watcher.RunOnSameText | watcher.py:135-152 | over cycles on the same text whose posts return, either nothing was sent and the state is unchanged, or one send was made and the state is that text's digest |
| Watcher.RunNotifiesAtMostOnce | watcher.py:135-152 | such a run sends at most one notification |
| Watcher.NormalizeOneLine | watcher.py:72 | a single stripped line without boundaries is its own normalisation |
| Watcher.KursPageIsNormal | watcher.py:72 | the example page is already normalised |
| Watcher.KursPageMatches | watcher.py:78 | "kurs" matches the page that writes "KURS" |
| Watcher.SingleKeywordList | watcher.py:102 | a single keyword's list is the keyword itself |
| Watcher.FirstRunNotifies | watcher.py:132-144 | the first cycle on that page notifies with keyword list "kurs" and records the page's digest |
| Watcher.Watcher.constructor | watcher.py:126-132 | the watcher starts only with a webhook address, with the configured keywords as a set and no recorded digest |
| Watcher.Watcher.Cycle | watcher.py:136-150 | one pass of the loop body updates `lastDigest` and returns the outcome as `Step` does |
| Watcher.Watcher.Watch | watcher.py:135-152 | running the loop over the polls updates `lastDigest` and returns the outcomes as `Run` does |

## Left out

- Text.LowerChar: models `lower()` only for ASCII, Latin-1 and Latin Extended-A capitals. That covers the configured Polish keywords. Every other character is left unchanged, including U+0130, which Python lowers to two characters.
- Text.Lower: inherits the restriction of `LowerChar`; it is length-preserving by construction.
- Network I/O is given to each cycle as a `Poll` value. This covers `requests.get`, `raise_for_status` on the page, `requests.post`, the headers and the timeouts.
- HTML parsing is not modelled. This covers BeautifulSoup, removing script, style and noscript tags, `get_text("\n")`, and the title lookup with its fallback to the URL. The model starts from the extracted text and the title.
- SHA-256, UTF-8 encoding and hex formatting are a parameter `hash` with no properties. As a result, nothing says that different pre-images give different digests.
- Fingerprint.SameWindowsSameDigest: only the direction "same windows, same digest" is proved. The converse cannot be proved: joining with "\n" is not injective when windows contain newlines, and the hash is opaque.
- `json.dumps` serialisation of the payload and the Content-Type header are not modelled. The payload is a datatype.
- Logging is not modelled, and neither is `time.sleep(CHECK_INTERVAL_SECONDS)`.
- `while True` is modelled as a run over a finite sequence of polls.
- Reading `DISCORD_WEBHOOK_URL` from the environment is not modelled. The constructor takes the address as a parameter.
- Watcher.Run: its own contract states only the outcome count. Its behaviour is stated by `RunOnSameText` and `RunNotifiesAtMostOnce`, and by `Watch`.
- Lines.SplitLines: the round trip with "\n"-join is proved only for texts whose line boundaries are all "\n" and that do not end with one. For other boundaries, such as "\r\n", and for a trailing boundary, the lines are pinned down by `SplitLinesStep` and the definition, not by a round-trip lemma.
