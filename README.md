# Pseudo-analyzer annotation core, in Dafny

This project models two parts of the pseudo-analyzer, a tool that finds named entities in
documents so that reviewers can decide which ones must be anonymised.

- The candidate review view of `psan/annotate.py`. The SAX filter `RecognizedTagFilter`
  turns the `sentence` / `token` / `ne` events of a recognised document into styled `span`
  elements. It covers a window of 100 token ids on either side of the reviewed span's start,
  followed by one faded-out sentence. The model also covers:
  - the decisions table the filter reads;
  - the part of `show_candidate` that drives the filter and labels the entity type;
  - the decision and rule a reviewer's form submission records (`set()`).
- The feature extractor of `ner-eval/feature_digger.py`. Its `FeatureParser` forwards the
  document text. At an `ne` end it reports the character interval and label of the confirmed
  entity still pending there, when text came since that entity's start.

The modules are:

- `Wrappers` holds Option and Result.
- `Texts` holds the concatenation of text chunks.
- `Decisions` holds the form's decision and rule choice, and the entity-type label.
- `DecisionTable` holds the per-window decisions table. Each slot is a Python dict, modelled
  as an insertion-ordered list of (length, decision) pairs with distinct keys.
- `Markup` holds the calls the filter makes on its XML generator, plus Python's
  `str.strip()` and `str.split("\n")`.
- `Annotate` holds the filter as a class, with one method per handler and a `ShowCandidate`
  driver. It also holds the handlers' effect on the parser state as functions (`Step`, and
  `Run` over a whole document). The driver is proved to agree with them.
- `FeatureDigger` holds the parser as a class and an `Extract` driver.

Both drivers take a document as an already-parsed sequence of events. The XML generator and
the two callbacks become sequences that the methods append to.

Positions in the filter are token ids. The window, the highlighted span and the candidate ends
are all compared against the `id` of the last token seen. A span's end is the inclusive id of
its last token. Token ids are not character offsets.

## Model

| member | source | states |
|---|---|---|
| Decisions.Decide | psan/annotate.py:107-129 | the decision is public exactly when a public button was pressed and secret otherwise; a rule is made exactly when a lemma or entity-type button was pressed, the word rule taking precedence; the rule carries the public/secret decision and the annotation then records RULE; the rule's condition is the form's condition or the entity type |
| Decisions.EntityTypeLabel | psan/annotate.py:84-89 | a known code is described by its NE_CODES entry, an unknown one by itself, a missing one by ""; the code shown is the raw code or "" |
| DecisionTable.RecordedDecisionReadsBack | psan/annotate.py:193-194 | read back through COALESCE, what a form submission records shows exactly the public/secret choice of the form |
| DecisionTable.Put | psan/annotate.py:199 | a dict assignment keeps keys distinct, maps the key to the new value, leaves every other key's value and every key's position alone, and appends a new key at the end |
| DecisionTable.SlotLookup | psan/annotate.py:198-199 | looking up a length in a start's dict gives the decision of the last row with that start and length |
| DecisionTable.NewRowKeepsOrder | psan/annotate.py:198-199 | storing a further row never moves the keys already in a dict |
| DecisionTable.GetDecisions | psan/annotate.py:189-200 | the table has one dict per position of the window, empty for a negative width, and the dict at offset i holds, in row order, the rows the window query returns with start window_start + i |
| DecisionTable.InWindowLookup | psan/annotate.py:199-203 | a span starting inside the window finds its own dict, and in it the decision last recorded for exactly that span |
| DecisionTable.FirstDecided | psan/annotate.py:232-240 | the index found is that of the first entry, in insertion order, whose decision is public or secret; none is found exactly when no entry has one |
| Markup.StripFacts | psan/annotate.py:284 | the stripped chunk is no longer than the chunk, empty exactly when the chunk is all whitespace, and neither starts nor ends with whitespace |
| Markup.StripIdempotent | psan/annotate.py:284 | stripping a stripped chunk changes nothing |
| Markup.TrimStartFacts | psan/annotate.py:284 | left stripping removes the longest all-whitespace prefix |
| Markup.TrimEndFacts | psan/annotate.py:284 | right stripping removes the longest all-whitespace suffix |
| Markup.SplitFacts | psan/annotate.py:290 | splitting at newlines gives one more piece than there are newlines, no piece holds a newline, and joining the pieces with newlines gives the chunk back |
| Markup.LineBreaksFaithful | psan/annotate.py:288-295 | the corrected rendering of a chunk reads back as the chunk, its text payloads are the chunk without newlines, it has one br per newline, and it opens no span |
| Markup.ChunkShowsContent | psan/annotate.py:279-295 | rendering a chunk after earlier markup, in the order the code emits, appends exactly the chunk's lines and breaks and no span; the text payloads added are the chunk without its newlines, none holding a newline, with one br per newline |
| Markup.AsWrittenMisplacesBreak | psan/annotate.py:289-295 | as written, the chunk "a\nb" is rendered as "a", "b", br, which reads back as "ab\n" and not as the chunk |
| Markup.AsWrittenSameTextAndBreaks | psan/annotate.py:289-295 | as written, the rendering has the same text payloads and the same number of br elements as the corrected one; only their order differs |
| Markup.AsWrittenTextAndBreaks | psan/annotate.py:288-295 | as written, a chunk's rendering still has the chunk without newlines as its text payloads, one br per newline, no span and no newline inside a text node |
| Markup.ChunksMarkupFacts | psan/annotate.py:279-295 | the rendering of a run of chunks, chunk after chunk as written, has their text without newlines as its payloads and one br per newline of that text, and holds no span |
| Markup.SpansKeepContent | psan/annotate.py:202-221 | opening and closing spans hands on no text and no line break |
| Annotate.CandidateStyling | psan/annotate.py:202-212 | a candidate's class starts with "candidate"; it is marked public exactly when its recorded decision is public and secret exactly when that decision is secret; it ends with " highlight" exactly when the candidate lies inside the reviewed span |
| Annotate.TokenStyling | psan/annotate.py:223-246 | the reviewed span's first token is highlighted and fails the assert exactly when a candidate end is already pending; any other token fails exactly when its slot is outside the table; otherwise it takes the style and length of the first public or secret entry of its slot, or stays a plain token with the pending end unchanged |
| Annotate.ChunkTokenStripped | psan/annotate.py:283-286 | a collected token is non-empty stripped text, and a chunk that is not all whitespace inside the reviewed span contributes its stripped text |
| Annotate.RunFailureSticks | psan/annotate.py:81 | once a handler raises, the parse of the rest of the document changes nothing: the run ends with that exception |
| Annotate.StepTokens | psan/annotate.py:279-286 | only a chunk that arrives while text is shown changes the collected tokens, adding its stripped text when in the reviewed span |
| Annotate.RunTokensStripped | psan/annotate.py:283-286 | every token a whole run collects is non-empty stripped text |
| Annotate.RunTypeFromFocus | psan/annotate.py:265-267 | the entity type a whole run records is unset or the type of an ne whose span is exactly the reviewed one |
| Annotate.ShownFacts | psan/annotate.py:78-92 | a run's output, spans aside, has the shown chunks' text without newlines and one br per newline, and what the run collects and records satisfies the two facts above |
| Annotate.RecognizedTagFilter.constructor | psan/annotate.py:168-186 | the window start is clamped at 0, the table is the decisions table of that window, and the parser state starts out of the window with no depth, no pending end and token id -1 |
| Annotate.RecognizedTagFilter.StartCandidate | psan/annotate.py:202-217 | opens one span styled by the decision for exactly the span, with its interval click, one level deeper; IndexError with nothing changed when the start has no slot |
| Annotate.RecognizedTagFilter.EndCandidate | psan/annotate.py:219-221 | closes one span, one level shallower |
| Annotate.RecognizedTagFilter.StartToken | psan/annotate.py:223-248 | opens exactly one span, as the token style decides, one level deeper exactly when a candidate end is pending afterwards; a failure changes nothing |
| Annotate.RecognizedTagFilter.StartElement | psan/annotate.py:250-277 | a sentence enters the window exactly when the next token id lies in it; a token records its id in or out of the window; outside the window nothing is emitted; a candidate records its type only on an exact match, gets a synthetic highlighted token first exactly at depth 0 when it starts but does not end the reviewed span, then opens its span; only spans are ever emitted |
| Annotate.RecognizedTagFilter.Characters | psan/annotate.py:279-295 | out of the window and the fade-out nothing happens; otherwise the chunk is handed on line by line, each line after the first followed by a br, as the code does; its stripped text is collected exactly when it is non-empty and the current token lies in the reviewed span |
| Annotate.RecognizedTagFilter.EndElement | psan/annotate.py:297-319 | a candidate end closes one span; a token end closes a span at depth 0, or deeper only for the pending candidate end, which it clears; the window's last token closes every open level, leaves the window and opens exactly one fade-out span; the next sentence end closes it; only spans are ever emitted |
| Annotate.Feed | psan/annotate.py:78-81 | one event through the filter raises exactly when the reference step does, and otherwise leaves the state that step computes; the text and breaks handed on are the chunk's markup exactly when a chunk arrives while the filter is in the window or the fade-out sentence, and nothing otherwise |
| Annotate.FeedStart | psan/annotate.py:250-277 | a start tag leaves the state StartStep computes, raising exactly when it does, and hands on only spans |
| Annotate.FeedChars | psan/annotate.py:279-295 | a chunk leaves the state CharsStep computes and hands on its markup exactly when the filter shows text |
| Annotate.FeedEnd | psan/annotate.py:297-319 | an end tag leaves the state EndStep computes and hands on only spans |
| Annotate.ShowCandidate | psan/annotate.py:68-91 | the render fails exactly when the reference run raises; otherwise the fragment, spans aside, is the markup of the chunks the run shows, in order, as the code emits it; its text is theirs without newlines, with one br per newline; the tokens and the label are those the run collects and records; every token is stripped non-empty text; the type is none or that of an ne with exactly the reviewed span |
| FeatureDigger.FeatureParser.constructor | ner-eval/feature_digger.py:14-19 | starts at position 0 with nothing pending and nothing handed on |
| FeatureDigger.FeatureParser.StartElement | ner-eval/feature_digger.py:21-28 | a confirmed ne becomes the pending feature at the current position, replacing any pending one; nothing else changes |
| FeatureDigger.FeatureParser.Characters | ner-eval/feature_digger.py:30-32 | the position advances by the chunk's length and the chunk is handed on unchanged; the invariant (the position is the forwarded text's length, the intervals are ordered and disjoint) is kept |
| FeatureDigger.FeatureParser.EndElement | ner-eval/feature_digger.py:34-38 | an ne end reports the pending feature up to the current position and clears it, provided text was seen since it started; otherwise nothing changes |
| FeatureDigger.PendingUnique | ner-eval/feature_digger.py:21-38 | at most one confirmed start is pending at a time, the last one, since a new one replaces `_current` |
| FeatureDigger.FoundAtReport | ner-eval/feature_digger.py:34-38 | an ne end with text since the pending start reports exactly that start |
| FeatureDigger.NoneAfterReport | ner-eval/feature_digger.py:35-38 | once the pending start is reported, nothing is pending |
| FeatureDigger.Extract | ner-eval/feature_digger.py:11-38 | the text output is the document's chunks in order; the intervals are non-empty, ordered, disjoint and within the text; each was reported at an ne end for the confirmed ne start pending there, spanning exactly the text between the two and carrying that start's label; and every ne end that finds a confirmed start pending, with text since, reports it |

## Left out

- Flask routing, the login checks, form validation, templates and redirects are left out. So are the request parts of `show_candidate` and `set()`.
- The database is left out. The decisions table is built from a given list of rows, which the model filters by the window query's `WHERE` clause and merges by `COALESCE`. The `ORDER BY ref_start` only orders rows that land in different dicts, so it is not modelled. `set()`'s inserts, its rule upsert and its Celery dispatch are left out. Decisions.Decide returns what `set()` would write.
- XML parsing, serialisation and escaping are left out. Documents are event sequences with integer attributes already converted. The generator's output is the sequence of calls made on it.
- The onClick strings are modelled as click values; their text formatting and the JSON encoding of the tokens are left out.
- A missing or non-numeric attribute raises TypeError or ValueError in `int(attrs.get(...))`; the model takes the attributes as present. It also takes the `status` of an `ne` as present in the feature extractor, where a missing status raises AttributeError.
- Annotate.RecognizedTagFilter.StartElement: on a raised exception the contracts state the fields it changed. Nothing after it is modelled: the exception ends the parse, and `show_candidate` renders no page.
- Annotate.ShowCandidate: states the fragment with its spans dropped, not where each span falls in it. The per-handler contracts state the spans.
- There is no theorem that a whole document yields balanced spans, because in general it does not. Two cases break balance. In the first, a candidate end is still pending when the document ends and the window's last token never came, so nothing drains the open spans (psan/annotate.py:309-316). In the second, a token span was opened at depth 0 without raising the depth, and an `ne` inside it then raised the depth (psan/annotate.py:242-244, 269-273). The span is still open when the token's end arrives at depth > 0, so that end closes nothing for it (psan/annotate.py:301-307). The per-handler contracts state the depth bookkeeping instead.
- `psan/__init__.py` (application factory, configuration, language choice) is not part of this model.
- The feature extractor's command-line block, CSV writing and DiscardErrorHandler are left out. `Extract` returns the reported features and the forwarded text instead.

## Findings

| source | as written | input that shows it | evidently intended | confidence | as-written member | corrected member |
|---|---|---|---|---|---|---|
| psan/annotate.py:289-295 | `characters` emits each `br/` after the text of the line it should precede, so a multi-line string's line breaks move one line down. This flaw does not show on a rendered page: `show_candidate` parses with `sax.parse` (line 81), whose expat reader hands every line ending to `characters` as a chunk of its own. The chunk "\n" gives "", "", `br/`, which reads back correctly | the direct call `characters("a\nb")` gives "a", "b", `br/` ("ab" then a break) | a `br/` between consecutive lines, so that the chunk reads back unchanged | not executed | Markup.AsWrittenMisplacesBreak | Markup.LineBreaksFaithful |

The filter in this model renders each chunk it is handed as written (Markup.MarkLinesAsWritten).
The model does not assume expat's chunking, so the filter's contracts describe the page the
code produces for any chunks. Markup.MarkLines is the corrected order.
