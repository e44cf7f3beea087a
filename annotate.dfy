/**
 * The windowed annotation renderer of psan/annotate.py: RecognizedTagFilter
 * (lines 165-319), a SAX filter that turns the `sentence` / `token` / `ne`
 * events of a recognised document into styled `span` elements for a window
 * of token ids around the candidate under review, followed by one faded-out
 * sentence of context; and the part of `show_candidate` (lines 68-92) that
 * drives it and prepares the entity label and the highlighted tokens.
 */
module Annotate {
  import opened Wrappers
  import opened Decisions
  import opened DecisionTable
  import opened Markup
  import opened Texts

  /**
   * The attributes the filter reads, already converted from text: a token's
   * `id`, and an entity candidate's `start`, `end` and `type` (the type may
   * be missing).
   */
  datatype Attrs = Attrs(id: int, start: int, end: int, neType: Option<string>)

  /** The SAX events of a recognised document. */
  datatype Event =
    | StartTag(name: string, attrs: Attrs)
    | Chars(content: string)
    | EndTag(name: string)

  /** The exceptions a handler of the filter can raise. */
  datatype FilterError =
    | IndexError        // a span start outside the decisions table
    | AssertionError    // the highlighted token opened while a candidate end is pending

  datatype Outcome = Pass | Fail(error: FilterError)

  /** The `n` span closings the window's end hands on when `n` spans are open. */
  function Closes(n: nat): (r: seq<Out>)
    ensures |r| == n && forall i | 0 <= i < n :: r[i] == Close
  {
    seq(n, _ => Close)
  }

  /** The class of an `ne` span: its recorded decision's styling, then the highlight mark. */
  function CandidateClass(decision: Option<Decision>, highlighted: bool): string {
    (match decision
     case Some(Public) => "candidate candidate-public"
     case Some(Secret) => "candidate candidate-secret"
     case _ => "candidate")
    + (if highlighted then " highlight" else "")
  }

  /**
   * A candidate span is marked public exactly when its span's decision is
   * public, secret exactly when it is secret, and highlighted exactly when
   * it lies inside the span under review.
   */
  lemma CandidateStyling(decision: Option<Decision>, highlighted: bool)
    ensures var c := CandidateClass(decision, highlighted);
            && "candidate" <= c
            && ("candidate candidate-public" <= c <==> decision == Some(Public))
            && ("candidate candidate-secret" <= c <==> decision == Some(Secret))
            && (highlighted <==> |c| >= 10 && c[|c| - 10..] == " highlight")
  {
    var c := CandidateClass(decision, highlighted);
    var mark := if highlighted then " highlight" else "";
    if highlighted {
      assert c[|c| - 10..] == mark;
    }
    if decision == Some(Public) {
      assert c == "candidate candidate-public" + mark;
      assert c[..26] == "candidate candidate-public";
      assert c[20] != "candidate candidate-secret"[20];
    } else if decision == Some(Secret) {
      assert c == "candidate candidate-secret" + mark;
      assert c[..26] == "candidate candidate-secret";
      assert c[20] != "candidate candidate-public"[20];
    } else {
      assert c == "candidate" + mark;
      assert c[..9] == "candidate";
      assert |c| < 26;
    }
    if !highlighted && |c| >= 10 {
      assert c[|c| - 10] != ' ';
    }
  }

  /** The `onClick` of a token span: the candidate interval when one is pending, the token itself otherwise. */
  function TokenClickFor(tokenId: int, candidateEnd: int): Click {
    if candidateEnd != -1 then IntervalClick(tokenId, candidateEnd) else TokenClick(tokenId)
  }

  /** The class and the pending candidate end `_startToken` settles on before it opens its span. */
  datatype TokenStyle = TokenStyle(cls: string, candidateEnd: int)

  /**
   * `_startToken`'s choice for token `tokenId`, given the pending candidate
   * end and the token's slot of the decisions table (None when indexing it
   * raises IndexError).
   */
  function StyleToken(tokenId: int, highlightStart: int, highlightEnd: int, candidateEnd: int,
                      slot: Option<Slot>): Result<TokenStyle, FilterError>
  {
    if tokenId == highlightStart then
      if candidateEnd != -1 then Failure(AssertionError)
      else Success(TokenStyle("token highlight", highlightEnd))
    else
      match slot
      case None => Failure(IndexError)
      case Some(d) =>
        match FirstDecided(d)
        case Some(i) =>
          Success(TokenStyle(if d[i].1 == Public then "token candidate-public" else "token candidate-secret",
                             tokenId + d[i].0))
        case None => Success(TokenStyle("token", candidateEnd))
  }

  /**
   * The token under review is highlighted and keeps its span open until the
   * end of the reviewed span (which the assert demands is not already
   * pending); any other token takes the styling of the first public or
   * secret decision recorded at its position, in insertion order, and its
   * span stays open for that decision's length; failing one, it is a plain
   * token and the pending end is left alone.
   */
  lemma TokenStyling(tokenId: int, highlightStart: int, highlightEnd: int, candidateEnd: int, slot: Option<Slot>)
    ensures var s := StyleToken(tokenId, highlightStart, highlightEnd, candidateEnd, slot);
            && (tokenId == highlightStart ==>
                 (s.Success? <==> candidateEnd == -1)
                 && (s.Success? ==> s.value == TokenStyle("token highlight", highlightEnd)))
            && (tokenId != highlightStart ==> (s.Success? <==> slot.Some?))
            && (tokenId != highlightStart && slot.Some? ==>
                 (forall j | 0 <= j < |slot.value| :: !Decided(slot.value[j].1)) ==> s.value == TokenStyle("token", candidateEnd))
            && (tokenId != highlightStart && slot.Some? ==>
                 forall i | 0 <= i < |slot.value| && Decided(slot.value[i].1) && (forall j | 0 <= j < i :: !Decided(slot.value[j].1)) ::
                   s.value.candidateEnd == tokenId + slot.value[i].0
                   && (s.value.cls == "token candidate-public" <==> slot.value[i].1 == Public)
                   && (s.value.cls == "token candidate-secret" <==> slot.value[i].1 == Secret))
  {
    if tokenId != highlightStart && slot.Some? {
      var d := slot.value;
      forall i | 0 <= i < |d| && Decided(d[i].1) && (forall j | 0 <= j < i :: !Decided(d[j].1))
        ensures FirstDecided(d) == Some(i)
      {
      }
    }
  }

  /**
   * The highlighted token a text chunk contributes: its stripped text, when
   * that is not empty and the current token lies in the reviewed span.
   */
  function ChunkToken(inSpan: bool, content: string): seq<string> {
    var text := Strip(content);
    if inSpan && |text| > 0 then [text] else []
  }

  /** A collected token is never empty and has no surrounding whitespace. */
  lemma ChunkTokenStripped(inSpan: bool, content: string)
    ensures forall t | t in ChunkToken(inSpan, content) :: t != "" && Strip(t) == t
    ensures inSpan && !AllSpace(content) ==> ChunkToken(inSpan, content) == [Strip(content)]
  {
    StripIdempotent(content);
    StripFacts(content);
    StripFacts(Strip(content));
  }

  /** The RecognizedTagFilter, with its downstream XML generator reduced to the list of calls it receives. */
  class RecognizedTagFilter {
    const windowStart: int
    const windowEnd: int
    const highlightStart: int
    const highlightEnd: int
    const annotations: seq<Slot>
    var inWindow: bool
    var lastSentence: bool
    var highlightTokens: seq<string>
    var entityType: Option<string>
    var userCandidateEnd: int
    var tokenId: int
    var nestedDepth: int
    /** Everything handed on to the XML generator so far. */
    var out: seq<Out>

    /** What the filter was built with. */
    function Config(): FilterConfig {
      FilterConfig(windowStart, windowEnd, highlightStart, highlightEnd, annotations)
    }

    /** The filter's parsing state: every field but its output. */
    function State(): FilterState
      reads this
    {
      FilterState(inWindow, lastSentence, tokenId, nestedDepth, userCandidateEnd, entityType, highlightTokens)
    }

    /**
     * A filter for the window [windowStart, windowEnd], the start clamped
     * at 0, with the decisions table of that window built from `rows`.
     */
    constructor (highlightStart: int, highlightEnd: int, windowStart: int, windowEnd: int, rows: seq<Row>)
      ensures this.windowStart == (if windowStart > 0 then windowStart else 0) && this.windowEnd == windowEnd
      ensures IsDecisionTable(annotations, rows, this.windowStart, windowEnd)
      ensures this.highlightStart == highlightStart && this.highlightEnd == highlightEnd
      ensures !inWindow && !lastSentence && highlightTokens == [] && entityType == None
      ensures userCandidateEnd == -1 && tokenId == -1 && nestedDepth == 0 && out == []
      ensures State() == InitialState()
    {
      var start := if windowStart > 0 then windowStart else 0;
      var table := GetDecisions(rows, start, windowEnd);
      this.windowStart := start;
      this.windowEnd := windowEnd;
      this.annotations := table;
      this.highlightStart := highlightStart;
      this.highlightEnd := highlightEnd;
      inWindow, lastSentence := false, false;
      highlightTokens, entityType := [], None;
      userCandidateEnd, tokenId, nestedDepth := -1, -1, 0;
      out := [];
    }

    /**
     * `_startCandidate`: opens one span styled by the decision recorded for
     * exactly [refStart, refEnd], one level deeper; IndexError, with nothing
     * changed, when refStart has no slot.
     */
    method StartCandidate(refStart: int, refEnd: int, highlighted: bool) returns (outcome: Outcome)
      modifies this
      ensures var slot := PyIndex(annotations, refStart - windowStart);
              && (slot.None? ==> outcome == Fail(IndexError) && out == old(out) && nestedDepth == old(nestedDepth))
              && (slot.Some? ==>
                   outcome == Pass
                   && out == old(out) + [Open(CandidateClass(Get(slot.value, refEnd - refStart), highlighted),
                                              IntervalClick(refStart, refEnd))]
                   && nestedDepth == old(nestedDepth) + 1)
      ensures inWindow == old(inWindow) && lastSentence == old(lastSentence) && tokenId == old(tokenId)
      ensures userCandidateEnd == old(userCandidateEnd) && highlightTokens == old(highlightTokens)
      ensures entityType == old(entityType)
    {
      var slot := PyIndex(annotations, refStart - windowStart);
      if slot.None? {
        return Fail(IndexError);
      }
      var annotation := Get(slot.value, refEnd - refStart);
      var cls := CandidateClass(annotation, highlighted);
      nestedDepth := nestedDepth + 1;
      out := out + [Open(cls, IntervalClick(refStart, refEnd))];
      outcome := Pass;
    }

    /** `_endCandidate`: closes one span, one level shallower. */
    method EndCandidate()
      modifies this
      ensures out == old(out) + [Close] && nestedDepth == old(nestedDepth) - 1
      ensures inWindow == old(inWindow) && lastSentence == old(lastSentence) && tokenId == old(tokenId)
      ensures userCandidateEnd == old(userCandidateEnd) && highlightTokens == old(highlightTokens)
      ensures entityType == old(entityType)
    {
      out := out + [Close];
      nestedDepth := nestedDepth - 1;
    }

    /**
     * `_startToken`: opens exactly one span for the current token, styled as
     * StyleToken decides, one level deeper exactly when a candidate end is
     * pending afterwards; a failure changes nothing.
     */
    method StartToken() returns (outcome: Outcome)
      modifies this
      ensures var s := StyleToken(tokenId, highlightStart, highlightEnd, old(userCandidateEnd),
                                  PyIndex(annotations, tokenId - windowStart));
              && (s.Failure? ==>
                   outcome == Fail(s.error) && out == old(out) && nestedDepth == old(nestedDepth)
                   && userCandidateEnd == old(userCandidateEnd))
              && (s.Success? ==>
                   outcome == Pass
                   && userCandidateEnd == s.value.candidateEnd
                   && out == old(out) + [Open(s.value.cls, TokenClickFor(tokenId, s.value.candidateEnd))]
                   && nestedDepth == old(nestedDepth) + (if s.value.candidateEnd != -1 then 1 else 0))
      ensures inWindow == old(inWindow) && lastSentence == old(lastSentence) && tokenId == old(tokenId)
      ensures highlightTokens == old(highlightTokens) && entityType == old(entityType)
    {
      var cls := "token";
      if tokenId == highlightStart {
        cls := cls + " highlight";
        assert cls == "token highlight";
        if userCandidateEnd != -1 {
          return Fail(AssertionError);
        }
        userCandidateEnd := highlightEnd;
      } else {
        var slot := PyIndex(annotations, tokenId - windowStart);
        if slot.None? {
          return Fail(IndexError);
        }
        var entries := slot.value;
        for i := 0 to |entries|
          invariant forall j | 0 <= j < i :: !Decided(entries[j].1)
          invariant userCandidateEnd == old(userCandidateEnd) && cls == "token"
          invariant out == old(out) && nestedDepth == old(nestedDepth) && tokenId == old(tokenId)
          invariant inWindow == old(inWindow) && lastSentence == old(lastSentence)
          invariant highlightTokens == old(highlightTokens) && entityType == old(entityType)
        {
          var (length, decision) := entries[i];
          if decision == Public {
            cls := "token candidate-public";
            userCandidateEnd := tokenId + length;
            break;
          } else if decision == Secret {
            cls := "token candidate-secret";
            userCandidateEnd := tokenId + length;
            break;
          }
        }
        TokenStyling(tokenId, highlightStart, highlightEnd, old(userCandidateEnd), slot);
      }
      var click := TokenClickFor(tokenId, userCandidateEnd);
      if userCandidateEnd != -1 {
        nestedDepth := nestedDepth + 1;
      }
      out := out + [Open(cls, click)];
      outcome := Pass;
    }

    /**
     * `startElement`. A sentence enters the window exactly when the token id
     * after the last one seen lies in it; a token records its id whether in
     * the window or not; outside the window nothing is emitted. In the
     * window, a token opens its span only at depth 0, and a candidate opens
     * its span after recording its type when it is exactly the reviewed
     * span, preceded by a synthetic highlighted token span when it starts the
     * reviewed span at depth 0 but ends before it.
     */
    method StartElement(name: string, attrs: Attrs) returns (outcome: Outcome)
      modifies this
      ensures ExtendsWithSpans(old(out), out)
      ensures inWindow == if name == "sentence" then windowStart <= old(tokenId) + 1 <= windowEnd else old(inWindow)
      ensures lastSentence == old(lastSentence) && highlightTokens == old(highlightTokens)
      ensures !inWindow || (name != "ne" && name != "token") ==>
                outcome == Pass && out == old(out) && nestedDepth == old(nestedDepth)
                && userCandidateEnd == old(userCandidateEnd) && entityType == old(entityType)
                && tokenId == if name == "token" then attrs.id else old(tokenId)
      ensures inWindow && name == "token" ==>
                tokenId == attrs.id && entityType == old(entityType)
                && (old(nestedDepth) != 0 ==>
                     outcome == Pass && out == old(out) && nestedDepth == old(nestedDepth)
                     && userCandidateEnd == old(userCandidateEnd))
                && (old(nestedDepth) == 0 ==>
                     var s := StyleToken(attrs.id, highlightStart, highlightEnd, old(userCandidateEnd),
                                         PyIndex(annotations, attrs.id - windowStart));
                     && (s.Failure? ==>
                          outcome == Fail(s.error) && out == old(out) && nestedDepth == old(nestedDepth)
                          && userCandidateEnd == old(userCandidateEnd))
                     && (s.Success? ==>
                          outcome == Pass && userCandidateEnd == s.value.candidateEnd
                          && out == old(out) + [Open(s.value.cls, TokenClickFor(attrs.id, s.value.candidateEnd))]
                          && nestedDepth == old(nestedDepth) + (if s.value.candidateEnd != -1 then 1 else 0)))
      ensures inWindow && name == "ne" ==>
                var start, end := attrs.start, attrs.end;
                var synthetic := old(nestedDepth) == 0 && start == highlightStart && end < highlightEnd;
                var tokenOut := if synthetic then [Open("token highlight", TokenClickFor(start, highlightEnd))] else [];
                var tokenDepth := if synthetic && highlightEnd != -1 then 1 else 0;
                var slot := PyIndex(annotations, start - windowStart);
                && entityType == (if start == highlightStart && end == highlightEnd then attrs.neType else old(entityType))
                && tokenId == (if synthetic then start else old(tokenId))
                && (synthetic && old(userCandidateEnd) != -1 ==>
                     outcome == Fail(AssertionError) && out == old(out) && nestedDepth == old(nestedDepth)
                     && userCandidateEnd == old(userCandidateEnd))
                && (!(synthetic && old(userCandidateEnd) != -1) ==>
                     && userCandidateEnd == (if synthetic then highlightEnd else old(userCandidateEnd))
                     && (slot.None? ==>
                          outcome == Fail(IndexError) && out == old(out) + tokenOut
                          && nestedDepth == old(nestedDepth) + tokenDepth)
                     && (slot.Some? ==>
                          outcome == Pass
                          && out == old(out) + tokenOut
                                    + [Open(CandidateClass(Get(slot.value, end - start),
                                                           highlightStart <= start && end <= highlightEnd),
                                            IntervalClick(start, end))]
                          && nestedDepth == old(nestedDepth) + tokenDepth + 1))
    {
      if name == "sentence" {
        inWindow := windowStart <= tokenId + 1 <= windowEnd;
      } else if name == "token" {
        tokenId := attrs.id;
      }
      outcome := Pass;
      if inWindow {
        if name == "ne" {
          var start, end := attrs.start, attrs.end;
          var highlighted := highlightStart <= start && end <= highlightEnd;
          if highlightStart == start && end == highlightEnd {
            entityType := attrs.neType;
          }
          if nestedDepth == 0 && start == highlightStart && end < highlightEnd {
            tokenId := start;
            outcome := StartToken();
            if outcome.Fail? {
              return;
            }
          }
          outcome := StartCandidate(start, end, highlighted);
        } else if name == "token" {
          if nestedDepth == 0 {
            outcome := StartToken();
          }
        }
      }
    }

    /**
     * `characters`. Outside the window and the fade-out sentence nothing
     * happens. Otherwise the chunk is handed on line by line, each line
     * after the first followed by a `br/`, and its stripped text, when not
     * empty, is collected as a highlighted token while the current token
     * lies in the reviewed span.
     */
    method Characters(content: string)
      modifies this
      ensures !(inWindow || lastSentence) ==> out == old(out) && highlightTokens == old(highlightTokens)
      ensures inWindow || lastSentence ==>
                out == old(out) + MarkLinesAsWritten(Split(content))
                && highlightTokens == old(highlightTokens) + ChunkToken(highlightStart <= tokenId <= highlightEnd, content)
      ensures inWindow == old(inWindow) && lastSentence == old(lastSentence) && tokenId == old(tokenId)
      ensures userCandidateEnd == old(userCandidateEnd) && nestedDepth == old(nestedDepth)
      ensures entityType == old(entityType)
    {
      if inWindow || lastSentence {
        if highlightStart <= tokenId <= highlightEnd {
          var text := Strip(content);
          if |text| > 0 {
            highlightTokens := highlightTokens + [text];
          }
        }
        var lines := Split(content);
        var rendered: seq<Out> := [];
        var firstLine := true;
        for i := 0 to |lines|
          modifies {}
          invariant firstLine <==> i == 0
          invariant rendered == MarkLinesAsWritten(lines[..i])
        {
          rendered := rendered + [Text(lines[i])];
          if firstLine {
            firstLine := false;
          } else {
            rendered := rendered + [Br];
          }
          MarkLinesAsWrittenStep(lines, i);
        }
        assert lines[..|lines|] == lines;
        out := out + rendered;
      }
    }

    /**
     * `endElement`. Outside the window only the end of the fade-out
     * sentence acts: it closes the fade-out span and ends the fade. In the
     * window a candidate end closes one span, one level shallower; a token
     * end closes a span at depth 0 (depth unchanged), or, deeper, only when
     * the token is the pending candidate end, which it then clears one level
     * shallower. The token at the window's end then closes one span per open
     * level, leaves the window and opens the single fade-out span.
     */
    method EndElement(name: string)
      modifies this
      ensures ExtendsWithSpans(old(out), out)
      ensures !old(inWindow) && old(lastSentence) && name == "sentence" ==>
                out == old(out) + [Close] && !lastSentence
      ensures !old(inWindow) && !(old(lastSentence) && name == "sentence") ==>
                out == old(out) && lastSentence == old(lastSentence)
      ensures !old(inWindow) ==> !inWindow && nestedDepth == old(nestedDepth) && userCandidateEnd == old(userCandidateEnd)
      ensures old(inWindow) && name == "ne" ==>
                out == old(out) + [Close] && nestedDepth == old(nestedDepth) - 1
                && inWindow && lastSentence == old(lastSentence) && userCandidateEnd == old(userCandidateEnd)
      ensures old(inWindow) && name != "ne" && name != "token" ==>
                out == old(out) && nestedDepth == old(nestedDepth)
                && inWindow && lastSentence == old(lastSentence) && userCandidateEnd == old(userCandidateEnd)
      ensures old(inWindow) && name == "token" ==>
                var closesPending := old(nestedDepth) != 0 && old(userCandidateEnd) == tokenId;
                var tokenClose := if old(nestedDepth) == 0 || closesPending then [Close] else [];
                var depth := if closesPending then old(nestedDepth) - 1 else old(nestedDepth);
                && userCandidateEnd == (if closesPending then -1 else old(userCandidateEnd))
                && (tokenId != windowEnd ==>
                     out == old(out) + tokenClose && nestedDepth == depth
                     && inWindow && lastSentence == old(lastSentence))
                && (tokenId == windowEnd ==>
                     out == old(out) + tokenClose + Closes(if depth > 0 then depth else 0)
                            + [Open("small fadeout", NoClick)]
                     && nestedDepth == (if depth > 0 then 0 else depth)
                     && !inWindow && lastSentence)
      ensures tokenId == old(tokenId) && highlightTokens == old(highlightTokens) && entityType == old(entityType)
    {
      if inWindow {
        if name == "ne" {
          EndCandidate();
        } else if name == "token" {
          if nestedDepth == 0 {
            out := out + [Close];
          } else if userCandidateEnd == tokenId {
            out := out + [Close];
            nestedDepth := nestedDepth - 1;
            userCandidateEnd := -1;
          }
          if tokenId == windowEnd {
            ghost var depth := nestedDepth;
            ghost var before := out;
            while nestedDepth > 0
              invariant nestedDepth <= depth && (depth > 0 ==> nestedDepth >= 0) && (depth <= 0 ==> nestedDepth == depth)
              invariant out == before + Closes(depth - nestedDepth)
              invariant inWindow && lastSentence == old(lastSentence) && tokenId == old(tokenId)
              invariant userCandidateEnd == (if old(nestedDepth) != 0 && old(userCandidateEnd) == tokenId then -1 else old(userCandidateEnd))
              invariant highlightTokens == old(highlightTokens) && entityType == old(entityType)
            {
              out := out + [Close];
              nestedDepth := nestedDepth - 1;
              assert Closes(depth - nestedDepth) == Closes(depth - nestedDepth - 1) + [Close];
            }
            inWindow := false;
            lastSentence := true;
            out := out + [Open("small fadeout", NoClick)];
          }
        }
      } else if lastSentence && name == "sentence" {
        out := out + [Close];
        lastSentence := false;
      }
    }
  }

  /** The margin, in token ids, of the window `show_candidate` renders around the reviewed span's start. */
  const WINDOW_MARGIN := 100

  /** What `show_candidate` renders for a candidate. */
  datatype CandidateView = CandidateView(
    contextHtml: seq<Out>,    // the filtered document
    typeLabel: EntityLabel,      // ne_type_str and ne_type_code
    tokens: seq<string>,      // the highlighted tokens
    tokenText: string)        // token_str: the tokens joined by spaces

  /** `" ".join(words)` */
  function JoinWords(words: seq<string>): string {
    if words == [] then "" else if |words| == 1 then words[0] else words[0] + " " + JoinWords(words[1..])
  }

  /** The start of the `ne` element whose span is exactly the reviewed one. */
  predicate IsFocusCandidate(e: Event, refStart: int, refEnd: int) {
    e.StartTag? && e.name == "ne" && e.attrs.start == refStart && e.attrs.end == refEnd
  }

  /** Every token is non-empty text without surrounding whitespace. */
  predicate StrippedTokens(tokens: seq<string>) {
    forall t | t in tokens :: t != "" && Strip(t) == t
  }

  /** The entity type is unset, or that of an `ne` among the events whose span is exactly [refStart, refEnd]. */
  predicate TypeFromFocus(entityType: Option<string>, events: seq<Event>, refStart: int, refEnd: int) {
    entityType == None
    || exists i | 0 <= i < |events| :: IsFocusCandidate(events[i], refStart, refEnd) && entityType == events[i].attrs.neType
  }

  /** What a filter is built with: its window, the reviewed span and the decisions table. */
  datatype FilterConfig = FilterConfig(
    windowStart: int,
    windowEnd: int,
    highlightStart: int,
    highlightEnd: int,
    annotations: seq<Slot>)

  /** The fields of a filter that its handlers read and change, except its output. */
  datatype FilterState = FilterState(
    inWindow: bool,
    lastSentence: bool,
    tokenId: int,
    nestedDepth: int,
    userCandidateEnd: int,
    entityType: Option<string>,
    highlightTokens: seq<string>)

  /** The state `__init__` leaves the parser in. */
  function InitialState(): FilterState {
    FilterState(false, false, -1, 0, -1, None, [])
  }

  /*
   * The handlers of the filter again, as functions of the state: the
   * reference the methods are checked against when a whole document is run
   * through the filter.
   */

  /** `_startToken`, on the state: the pending end and the depth it leaves. */
  function TokenStep(c: FilterConfig, s: FilterState): Result<FilterState, FilterError> {
    match StyleToken(s.tokenId, c.highlightStart, c.highlightEnd, s.userCandidateEnd,
                     PyIndex(c.annotations, s.tokenId - c.windowStart))
    case Failure(err) => Failure(err)
    case Success(style) =>
      Success(s.(userCandidateEnd := style.candidateEnd,
                 nestedDepth := s.nestedDepth + if style.candidateEnd != -1 then 1 else 0))
  }

  /** `_startCandidate`, on the state: one level deeper, or IndexError when the start has no slot. */
  function CandidateStep(c: FilterConfig, s: FilterState, start: int): Result<FilterState, FilterError> {
    if PyIndex(c.annotations, start - c.windowStart).None? then Failure(IndexError)
    else Success(s.(nestedDepth := s.nestedDepth + 1))
  }

  /** `startElement`, on the state. */
  function StartStep(c: FilterConfig, s: FilterState, name: string, attrs: Attrs): Result<FilterState, FilterError> {
    var s1 :=
      if name == "sentence" then s.(inWindow := c.windowStart <= s.tokenId + 1 <= c.windowEnd)
      else if name == "token" then s.(tokenId := attrs.id)
      else s;
    if !s1.inWindow then Success(s1)
    else if name == "ne" then
      var s2 := if c.highlightStart == attrs.start && attrs.end == c.highlightEnd then s1.(entityType := attrs.neType) else s1;
      if s2.nestedDepth == 0 && attrs.start == c.highlightStart && attrs.end < c.highlightEnd then
        match TokenStep(c, s2.(tokenId := attrs.start))
        case Failure(err) => Failure(err)
        case Success(s3) => CandidateStep(c, s3, attrs.start)
      else CandidateStep(c, s2, attrs.start)
    else if name == "token" && s1.nestedDepth == 0 then TokenStep(c, s1)
    else Success(s1)
  }

  /** The filter hands a chunk on exactly while it is in the window or in the fade-out sentence. */
  predicate Shows(s: FilterState) {
    s.inWindow || s.lastSentence
  }

  /** `characters`, on the state: a shown chunk in the reviewed span adds its stripped text. */
  function CharsStep(c: FilterConfig, s: FilterState, content: string): FilterState {
    if Shows(s) then
      s.(highlightTokens := s.highlightTokens + ChunkToken(c.highlightStart <= s.tokenId <= c.highlightEnd, content))
    else s
  }

  /** `endElement`, on the state. */
  function EndStep(c: FilterConfig, s: FilterState, name: string): FilterState {
    if s.inWindow then
      if name == "ne" then s.(nestedDepth := s.nestedDepth - 1)
      else if name == "token" then
        var closesPending := s.nestedDepth != 0 && s.userCandidateEnd == s.tokenId;
        var s1 := if closesPending then s.(nestedDepth := s.nestedDepth - 1, userCandidateEnd := -1) else s;
        if s.tokenId == c.windowEnd then
          s1.(nestedDepth := if s1.nestedDepth > 0 then 0 else s1.nestedDepth, inWindow := false, lastSentence := true)
        else s1
      else s
    else if s.lastSentence && name == "sentence" then s.(lastSentence := false)
    else s
  }

  /** One event, handled; an exception ends the parse. */
  function Step(c: FilterConfig, s: FilterState, e: Event): Result<FilterState, FilterError> {
    match e
    case StartTag(name, attrs) => StartStep(c, s, name, attrs)
    case Chars(content) => Success(CharsStep(c, s, content))
    case EndTag(name) => Success(EndStep(c, s, name))
  }

  /** The state after a fresh filter has handled the events, or the first exception raised. */
  function Run(c: FilterConfig, events: seq<Event>): Result<FilterState, FilterError> {
    if events == [] then Success(InitialState())
    else
      match Run(c, events[..|events| - 1])
      case Failure(err) => Failure(err)
      case Success(s) => Step(c, s, events[|events| - 1])
  }

  /** The markup a shown chunk adds, as psan/annotate.py:289-295 emits it; nothing for any other event. */
  function ChunkMarkup(s: FilterState, e: Event): seq<Out> {
    if e.Chars? && Shows(s) then MarkLinesAsWritten(Split(e.content)) else []
  }

  /** The chunks of the document the filter hands on: those arriving while it shows text, up to any exception. */
  function ShownChunks(c: FilterConfig, events: seq<Event>): seq<string> {
    if events == [] then []
    else
      var last := events[|events| - 1];
      ShownChunks(c, events[..|events| - 1])
      + match Run(c, events[..|events| - 1])
        case Success(s) => if last.Chars? && Shows(s) then [last.content] else []
        case Failure(_) => []
  }

  /** Handling one more event without an exception: its step, and the chunk it may show. */
  lemma PrefixStep(c: FilterConfig, events: seq<Event>, k: nat, s: FilterState)
    requires k < |events| && Run(c, events[..k]) == Success(s)
    ensures Run(c, events[..k + 1]) == Step(c, s, events[k])
    ensures ChunksMarkup(ShownChunks(c, events[..k + 1])) == ChunksMarkup(ShownChunks(c, events[..k])) + ChunkMarkup(s, events[k])
  {
    var prefix := events[..k + 1];
    assert prefix[..k] == events[..k];
    var chunks := ShownChunks(c, events[..k]);
    if events[k].Chars? && Shows(s) {
      assert ShownChunks(c, prefix) == chunks + [events[k].content];
      assert (chunks + [events[k].content])[..|chunks|] == chunks;
    } else {
      assert ShownChunks(c, prefix) == chunks;
    }
  }

  /** Once an exception is raised, the rest of the document changes nothing. */
  lemma {:induction false} RunFailureSticks(c: FilterConfig, events: seq<Event>, n: nat)
    requires n <= |events| && Run(c, events[..n]).Failure?
    ensures Run(c, events) == Run(c, events[..n])
  {
    if n < |events| {
      var prefix := events[..|events| - 1];
      assert prefix[..n] == events[..n];
      RunFailureSticks(c, prefix, n);
    } else {
      assert events[..n] == events;
    }
  }

  /** Only a shown chunk changes the collected tokens, and it adds its stripped text if in the reviewed span. */
  lemma StepTokens(c: FilterConfig, s: FilterState, e: Event)
    requires Step(c, s, e).Success?
    ensures Step(c, s, e).value.highlightTokens
            == s.highlightTokens
               + if e.Chars? && Shows(s) then ChunkToken(c.highlightStart <= s.tokenId <= c.highlightEnd, e.content) else []
  {
  }

  /** Every token a run collects is non-empty stripped text. */
  lemma {:induction false} RunTokensStripped(c: FilterConfig, events: seq<Event>)
    ensures Run(c, events).Success? ==> StrippedTokens(Run(c, events).value.highlightTokens)
  {
    if events != [] {
      var prefix, last := events[..|events| - 1], events[|events| - 1];
      RunTokensStripped(c, prefix);
      if Run(c, events).Success? {
        var s := Run(c, prefix).value;
        StepTokens(c, s, last);
        if last.Chars? {
          ChunkTokenStripped(c.highlightStart <= s.tokenId <= c.highlightEnd, last.content);
        }
      }
    }
  }

  /** The entity type a run records is unset or that of an `ne` with exactly the reviewed span. */
  lemma {:induction false} RunTypeFromFocus(c: FilterConfig, events: seq<Event>)
    ensures Run(c, events).Success? ==>
              TypeFromFocus(Run(c, events).value.entityType, events, c.highlightStart, c.highlightEnd)
  {
    if events != [] && Run(c, events).Success? {
      var prefix, last := events[..|events| - 1], events[|events| - 1];
      RunTypeFromFocus(c, prefix);
      var s := Run(c, prefix).value;
      var t := Run(c, events).value;
      if t.entityType != s.entityType {
        assert IsFocusCandidate(last, c.highlightStart, c.highlightEnd) && t.entityType == last.attrs.neType;
        assert events[|events| - 1] == last;
      } else if s.entityType != None {
        var i :| 0 <= i < |prefix| && IsFocusCandidate(prefix[i], c.highlightStart, c.highlightEnd)
                 && s.entityType == prefix[i].attrs.neType;
        assert events[i] == prefix[i];
      }
    }
  }

  /**
   * Hands one parsing event to the filter's matching handler (what the SAX
   * parser does for `show_candidate`). The handler raises exactly when the
   * reference step does, and otherwise leaves the state it computes; the
   * text and line breaks handed on are the chunk's markup exactly when the
   * chunk arrives while the filter shows text, and none otherwise, and no
   * text node ever holds a newline.
   */
  method Feed(filter: RecognizedTagFilter, e: Event) returns (outcome: Outcome)
    modifies filter
    ensures var r := Step(filter.Config(), old(filter.State()), e);
            && (outcome.Pass? <==> r.Success?)
            && (outcome.Fail? ==> outcome.error == r.error)
            && (outcome.Pass? ==> filter.State() == r.value)
    ensures outcome.Pass? ==> NonSpan(filter.out) == NonSpan(old(filter.out)) + ChunkMarkup(old(filter.State()), e)
    ensures outcome.Pass? && LineFree(old(filter.out)) ==> LineFree(filter.out)
  {
    match e
    case StartTag(name, attrs) =>
      outcome := FeedStart(filter, name, attrs);
    case Chars(content) =>
      FeedChars(filter, content);
      outcome := Pass;
    case EndTag(name) =>
      FeedEnd(filter, name);
      outcome := Pass;
  }

  /** A start tag: the state StartStep computes, and only spans handed on. */
  method FeedStart(filter: RecognizedTagFilter, name: string, attrs: Attrs) returns (outcome: Outcome)
    modifies filter
    ensures var r := StartStep(filter.Config(), old(filter.State()), name, attrs);
            && (outcome.Pass? <==> r.Success?)
            && (outcome.Fail? ==> outcome.error == r.error)
            && (outcome.Pass? ==> filter.State() == r.value)
    ensures NonSpan(filter.out) == NonSpan(old(filter.out))
    ensures LineFree(old(filter.out)) ==> LineFree(filter.out)
  {
    ghost var before := filter.out;
    outcome := filter.StartElement(name, attrs);
    SpansKeepContent(before, filter.out);
  }

  /** A text chunk: the state CharsStep computes, and the chunk's markup handed on exactly when it is shown. */
  method FeedChars(filter: RecognizedTagFilter, content: string)
    modifies filter
    ensures filter.State() == CharsStep(filter.Config(), old(filter.State()), content)
    ensures NonSpan(filter.out) == NonSpan(old(filter.out)) + ChunkMarkup(old(filter.State()), Chars(content))
    ensures LineFree(old(filter.out)) ==> LineFree(filter.out)
  {
    ghost var before := filter.out;
    filter.Characters(content);
    if old(filter.inWindow) || old(filter.lastSentence) {
      ChunkShowsContent(before, content);
    }
  }

  /** An end tag: the state EndStep computes, and only spans handed on. */
  method FeedEnd(filter: RecognizedTagFilter, name: string)
    modifies filter
    ensures filter.State() == EndStep(filter.Config(), old(filter.State()), name)
    ensures NonSpan(filter.out) == NonSpan(old(filter.out))
    ensures LineFree(old(filter.out)) ==> LineFree(filter.out)
  {
    ghost var before := filter.out;
    filter.EndElement(name);
    SpansKeepContent(before, filter.out);
  }

  /**
   * What a run's output shows, spans aside: the text of the shown chunks
   * without newlines, one `br/` per newline, and no newline inside a text
   * node; what it collects: stripped non-empty tokens; and the type it
   * records: that of an `ne` with exactly the reviewed span, if any.
   */
  lemma ShownFacts(c: FilterConfig, events: seq<Event>, out: seq<Out>)
    requires Run(c, events).Success?
    requires NonSpan(out) == ChunksMarkup(ShownChunks(c, events))
    ensures TextOf(out) == WithoutNewlines(Concat(ShownChunks(c, events)))
    ensures Breaks(out) == Count(Concat(ShownChunks(c, events)), '\n')
    ensures StrippedTokens(Run(c, events).value.highlightTokens)
    ensures TypeFromFocus(Run(c, events).value.entityType, events, c.highlightStart, c.highlightEnd)
  {
    ChunksMarkupFacts(ShownChunks(c, events));
    NonSpanKeepsText(out);
    RunTokensStripped(c, events);
    RunTypeFromFocus(c, events);
  }

  /** The filter `show_candidate` builds: WINDOW_MARGIN token ids on either side of the reviewed span's start. */
  function ShowConfig(rows: seq<Row>, refStart: int, refEnd: int): FilterConfig {
    var windowStart := if refStart - WINDOW_MARGIN > 0 then refStart - WINDOW_MARGIN else 0;
    var windowEnd := refStart + WINDOW_MARGIN;
    FilterConfig(windowStart, windowEnd, refStart, refEnd,
                 seq(SlotCount(windowStart, windowEnd), i => SlotFor(rows, windowStart + i)))
  }

  /**
   * `show_candidate` without the database, the file and the template: runs
   * the document's events through a filter for the window of
   * WINDOW_MARGIN token ids on either side of the reviewed span's start,
   * then labels the entity type and joins the highlighted tokens. An
   * exception of the filter aborts the whole render.
   *
   * The render fails exactly when the reference run raises. Otherwise the
   * fragment's text and line breaks, spans aside, are those of the chunks
   * the filter shows, in order, as written: its text is theirs without
   * newlines and it has one `br/` per newline. The tokens and the label
   * are those the run collects and records; every token is non-empty
   * stripped text, and the label is that of no type or of the type of an
   * `ne` whose span is exactly the reviewed one.
   */
  method ShowCandidate(rows: seq<Row>, refStart: int, refEnd: int, events: seq<Event>)
    returns (view: Result<CandidateView, FilterError>)
    ensures var r := Run(ShowConfig(rows, refStart, refEnd), events);
            && (view.Success? <==> r.Success?)
            && (view.Failure? ==> view.error == r.error)
            && (view.Success? ==>
                 && view.value.tokens == r.value.highlightTokens
                 && view.value.tokenText == JoinWords(r.value.highlightTokens)
                 && view.value.typeLabel == EntityTypeLabel(r.value.entityType))
    ensures view.Success? ==>
              NonSpan(view.value.contextHtml) == ChunksMarkup(ShownChunks(ShowConfig(rows, refStart, refEnd), events))
    ensures view.Success? ==>
              var shown := Concat(ShownChunks(ShowConfig(rows, refStart, refEnd), events));
              && TextOf(view.value.contextHtml) == WithoutNewlines(shown)
              && Breaks(view.value.contextHtml) == Count(shown, '\n')
              && LineFree(view.value.contextHtml)
    ensures view.Success? ==> StrippedTokens(view.value.tokens)
    ensures view.Success? ==>
              TypeFromFocus(Run(ShowConfig(rows, refStart, refEnd), events).value.entityType, events, refStart, refEnd)
  {
    var filter := new RecognizedTagFilter(refStart, refEnd, refStart - WINDOW_MARGIN, refStart + WINDOW_MARGIN, rows);
    ghost var c := ShowConfig(rows, refStart, refEnd);
    assert filter.Config() == c;
    for k := 0 to |events|
      invariant filter.Config() == c
      invariant Run(c, events[..k]) == Success(filter.State())
      invariant NonSpan(filter.out) == ChunksMarkup(ShownChunks(c, events[..k])) && LineFree(filter.out)
    {
      PrefixStep(c, events, k, filter.State());
      var outcome := Feed(filter, events[k]);
      if outcome.Fail? {
        RunFailureSticks(c, events, k + 1);
        view := Failure(outcome.error);
        return;
      }
    }
    assert events[..|events|] == events;
    ShownFacts(c, events, filter.out);
    var typeLabel := EntityTypeLabel(filter.entityType);
    view := Success(CandidateView(filter.out, typeLabel, filter.highlightTokens, JoinWords(filter.highlightTokens)));
  }
}
