/**
 * The markup the annotation filter hands on to its XML generator, and the
 * string operations it relies on: Python's `str.strip()` and
 * `str.split("\n")`, and the rendering of line breaks as `br/` elements
 * (psan/annotate.py:279-295).
 */
module Markup {
  import opened Texts

  /** The `onClick` attribute of a rendered span, kept abstract. */
  datatype Click =
    | NoClick                              // no onClick attribute (the fade-out span)
    | TokenClick(id: int)                  // onTokenClick(event, id)
    | IntervalClick(from: int, to: int)    // onTokenIntervalClick(event, from, to)

  /** One call the filter makes on the XML generator. */
  datatype Out =
    | Open(cls: string, click: Click)      // startElement("span", {"class": cls, ...})
    | Close                                // endElement("span")
    | Text(s: string)                      // characters(s)
    | Br                                   // startElement("br/", {})

  /** Python's `str.isspace()` for a single character. */
  predicate IsSpace(c: char) {
    c == ' ' || '\t' <= c <= '\r' || '\U{1c}' <= c <= '\U{1f}' || c == '\U{85}' || c == '\U{a0}'
    || c == '\U{1680}' || '\U{2000}' <= c <= '\U{200a}' || c == '\U{2028}' || c == '\U{2029}'
    || c == '\U{202f}' || c == '\U{205f}' || c == '\U{3000}'
  }

  /** Every character of `s` is whitespace (so `s.strip()` is empty). */
  predicate AllSpace(s: string) {
    forall k | 0 <= k < |s| :: IsSpace(s[k])
  }

  /** `s.lstrip()`. */
  function TrimStart(s: string): string {
    if s != [] && IsSpace(s[0]) then TrimStart(s[1..]) else s
  }

  /** `s.lstrip()` is the longest suffix of `s` that does not start with whitespace. */
  lemma {:induction false} TrimStartFacts(s: string)
    ensures var r := TrimStart(s);
            |r| <= |s| && r == s[|s| - |r|..] && AllSpace(s[..|s| - |r|]) && (r == [] || !IsSpace(r[0]))
  {
    if s != [] && IsSpace(s[0]) {
      TrimStartFacts(s[1..]);
      var r := TrimStart(s[1..]);
      assert s[..|s| - |r|] == [s[0]] + s[1..][..|s| - 1 - |r|];
    }
  }

  /** `s.rstrip()`. */
  function TrimEnd(s: string): string {
    if s != [] && IsSpace(s[|s| - 1]) then TrimEnd(s[..|s| - 1]) else s
  }

  /** `s.rstrip()` is the longest prefix of `s` that does not end with whitespace. */
  lemma {:induction false} TrimEndFacts(s: string)
    ensures var r := TrimEnd(s);
            |r| <= |s| && r == s[..|r|] && AllSpace(s[|r|..]) && (r == [] || !IsSpace(r[|r| - 1]))
  {
    if s != [] && IsSpace(s[|s| - 1]) {
      TrimEndFacts(s[..|s| - 1]);
      var r := TrimEnd(s[..|s| - 1]);
      assert s[|r|..] == s[..|s| - 1][|r|..] + [s[|s| - 1]];
    }
  }

  /** Python's `s.strip()`. */
  function Strip(s: string): string {
    TrimEnd(TrimStart(s))
  }

  /**
   * `s.strip()` is no longer than `s`, empty exactly when `s` is all
   * whitespace, and neither starts nor ends with whitespace.
   */
  lemma StripFacts(s: string)
    ensures |Strip(s)| <= |s|
    ensures Strip(s) == [] <==> AllSpace(s)
    ensures Strip(s) == [] || (!IsSpace(Strip(s)[0]) && !IsSpace(Strip(s)[|Strip(s)| - 1]))
  {
    var t := TrimStart(s);
    TrimStartFacts(s);
    TrimEndFacts(t);
    if Strip(s) == [] {
      forall k | 0 <= k < |s|
        ensures IsSpace(s[k])
      {
        assert s[k] == s[..|s| - |t|][k];
      }
    }
  }

  /** Stripping twice changes nothing more than stripping once. */
  lemma StripIdempotent(s: string)
    ensures Strip(Strip(s)) == Strip(s)
  {
    var t := Strip(s);
    StripFacts(s);
    assert TrimStart(t) == t;
    assert TrimEnd(t) == t;
  }

  /** The number of occurrences of `c` in `s`. */
  function Count(s: string, c: char): nat {
    if s == [] then 0 else (if s[0] == c then 1 else 0) + Count(s[1..], c)
  }

  /** `s` with every newline removed. */
  function WithoutNewlines(s: string): (r: string)
    ensures '\n' !in r
  {
    if s == [] then [] else (if s[0] == '\n' then [] else [s[0]]) + WithoutNewlines(s[1..])
  }

  /** `"\n".join(lines)`. */
  function Join(lines: seq<string>): string
    requires |lines| >= 1
  {
    if |lines| == 1 then lines[0] else lines[0] + "\n" + Join(lines[1..])
  }

  /**
   * Python's `s.split("\n")`: the pieces between newlines, one more than
   * there are newlines, none holding a newline, and joined again they give
   * back `s`.
   */
  function Split(s: string): (r: seq<string>)
    ensures |r| >= 1
  {
    if s == [] then
      [""]
    else
      var rest := Split(s[1..]);
      if s[0] == '\n' then [""] + rest else [[s[0]] + rest[0]] + rest[1..]
  }

  /**
   * `s.split("\n")` has one more piece than `s` has newlines, no piece
   * holds a newline, and joined again the pieces give back `s`.
   */
  lemma {:induction false} SplitFacts(s: string)
    ensures |Split(s)| == Count(s, '\n') + 1
    ensures forall k | 0 <= k < |Split(s)| :: '\n' !in Split(s)[k]
    ensures Join(Split(s)) == s
  {
    if s != [] {
      SplitFacts(s[1..]);
      var rest := Split(s[1..]);
      var r := Split(s);
      if s[0] == '\n' {
        assert r[1..] == rest;
      } else {
        assert r[1..] == rest[1..];
        assert forall k | 1 <= k < |r| :: r[k] == rest[k];
        if |rest| > 1 {
          calc {
            Join(r);
            r[0] + "\n" + Join(rest[1..]);
            [s[0]] + (rest[0] + "\n" + Join(rest[1..]));
            [s[0]] + Join(rest);
          }
        }
        assert [s[0]] + s[1..] == s;
      }
    }
  }

  /** The text a sequence of markup shows, a `br/` counting as a newline. */
  function Plain(ms: seq<Out>): string {
    if ms == [] then ""
    else
      (match ms[0]
       case Text(s) => s
       case Br => "\n"
       case _ => "") + Plain(ms[1..])
  }

  /** The concatenated `characters` payloads of a sequence of markup. */
  function TextOf(ms: seq<Out>): string {
    if ms == [] then "" else (if ms[0].Text? then ms[0].s else "") + TextOf(ms[1..])
  }

  /** The number of `br/` elements in a sequence of markup. */
  function Breaks(ms: seq<Out>): nat {
    if ms == [] then 0 else (if ms[0].Br? then 1 else 0) + Breaks(ms[1..])
  }

  /** No `characters` payload of `ms` contains a newline. */
  predicate LineFree(ms: seq<Out>) {
    forall i | 0 <= i < |ms| :: ms[i].Text? ==> '\n' !in ms[i].s
  }

  /** No span is opened or closed in `ms`. */
  predicate SpanFree(ms: seq<Out>) {
    forall i | 0 <= i < |ms| :: ms[i].Text? || ms[i].Br?
  }

  /** `after` is `before` followed by nothing but span openings and closings. */
  predicate ExtendsWithSpans(before: seq<Out>, after: seq<Out>) {
    |before| <= |after| && after[..|before|] == before
    && forall i | |before| <= i < |after| :: after[i].Open? || after[i].Close?
  }

  /** The markup with every span opening and closing dropped: its text nodes and line breaks, in order. */
  function NonSpan(ms: seq<Out>): seq<Out> {
    if ms == [] then [] else (if ms[0].Text? || ms[0].Br? then [ms[0]] else []) + NonSpan(ms[1..])
  }

  lemma {:induction false} NonSpanAppend(a: seq<Out>, b: seq<Out>)
    ensures NonSpan(a + b) == NonSpan(a) + NonSpan(b)
  {
    if a != [] {
      assert (a + b)[1..] == a[1..] + b;
      NonSpanAppend(a[1..], b);
    } else {
      assert a + b == b;
    }
  }

  lemma {:induction false} NonSpanOfSpans(ms: seq<Out>)
    requires forall i | 0 <= i < |ms| :: ms[i].Open? || ms[i].Close?
    ensures NonSpan(ms) == []
  {
    if ms != [] {
      NonSpanOfSpans(ms[1..]);
    }
  }

  lemma {:induction false} NonSpanOfSpanFree(ms: seq<Out>)
    requires SpanFree(ms)
    ensures NonSpan(ms) == ms
  {
    if ms != [] {
      NonSpanOfSpanFree(ms[1..]);
      assert ms == [ms[0]] + ms[1..];
    }
  }

  /** Dropping the spans keeps every text payload and every line break. */
  lemma {:induction false} NonSpanKeepsText(ms: seq<Out>)
    ensures TextOf(NonSpan(ms)) == TextOf(ms) && Breaks(NonSpan(ms)) == Breaks(ms)
  {
    if ms != [] {
      var head := if ms[0].Text? || ms[0].Br? then [ms[0]] else [];
      NonSpanKeepsText(ms[1..]);
      TextOfAppend(head, NonSpan(ms[1..]));
      BreaksAppend(head, NonSpan(ms[1..]));
    }
  }

  /** Opening and closing spans hands on no text and no line break. */
  lemma SpansKeepContent(before: seq<Out>, after: seq<Out>)
    requires ExtendsWithSpans(before, after)
    ensures NonSpan(after) == NonSpan(before)
    ensures LineFree(before) ==> LineFree(after)
  {
    var ext := after[|before|..];
    assert after == before + ext;
    NonSpanOfSpans(ext);
    NonSpanAppend(before, ext);
    if LineFree(before) {
      LineFreeAppend(before, ext);
    }
  }

  lemma LineFreeAppend(a: seq<Out>, b: seq<Out>)
    requires LineFree(a) && LineFree(b)
    ensures LineFree(a + b)
  {
    forall i | 0 <= i < |a + b| && (a + b)[i].Text?
      ensures '\n' !in (a + b)[i].s
    {
      if i >= |a| {
        assert (a + b)[i] == b[i - |a|];
      }
    }
  }

  lemma SpanFreeAppend(a: seq<Out>, b: seq<Out>)
    requires SpanFree(a) && SpanFree(b)
    ensures SpanFree(a + b)
  {
    forall i | 0 <= i < |a + b|
      ensures (a + b)[i].Text? || (a + b)[i].Br?
    {
      if i >= |a| {
        assert (a + b)[i] == b[i - |a|];
      }
    }
  }

  /**
   * Rendering a chunk after some markup, in the order psan/annotate.py:289-295
   * emits it, appends the chunk's lines and line breaks and no span; the
   * text payloads added are the chunk without its newlines, none holding a
   * newline, and there is one `br/` per newline of the chunk.
   */
  lemma ChunkShowsContent(before: seq<Out>, content: string)
    ensures var after := before + MarkLinesAsWritten(Split(content));
            && NonSpan(after) == NonSpan(before) + MarkLinesAsWritten(Split(content))
            && TextOf(after) == TextOf(before) + WithoutNewlines(content)
            && Breaks(after) == Breaks(before) + Count(content, '\n')
            && (LineFree(before) ==> LineFree(after))
  {
    var ms := MarkLinesAsWritten(Split(content));
    AsWrittenTextAndBreaks(content);
    NonSpanAppend(before, ms);
    NonSpanOfSpanFree(ms);
    TextOfAppend(before, ms);
    BreaksAppend(before, ms);
    if LineFree(before) {
      LineFreeAppend(before, ms);
    }
  }

  /**
   * The markup for the lines of one text chunk, a `br/` between each line
   * and the next, so that the markup shows the lines in their order.
   */
  function MarkLines(lines: seq<string>): seq<Out> {
    if lines == [] then []
    else if |lines| == 1 then [Text(lines[0])]
    else MarkLines(lines[..|lines| - 1]) + [Br, Text(lines[|lines| - 1])]
  }

  /**
   * The markup psan/annotate.py:289-295 produces as written: the `br/` for
   * each line after the first is emitted AFTER that line's text.
   */
  function MarkLinesAsWritten(lines: seq<string>): seq<Out> {
    if lines == [] then []
    else if |lines| == 1 then [Text(lines[0])]
    else MarkLinesAsWritten(lines[..|lines| - 1]) + [Text(lines[|lines| - 1]), Br]
  }

  /** Marking one more line as written adds its text, followed by a `br/` unless it is the first. */
  lemma MarkLinesAsWrittenStep(lines: seq<string>, i: nat)
    requires i < |lines|
    ensures MarkLinesAsWritten(lines[..i + 1]) == MarkLinesAsWritten(lines[..i]) + [Text(lines[i])] + (if i == 0 then [] else [Br])
  {
    assert lines[..i + 1][..i] == lines[..i];
  }

  lemma {:induction false} PlainAppend(a: seq<Out>, b: seq<Out>)
    ensures Plain(a + b) == Plain(a) + Plain(b)
  {
    if a != [] {
      assert (a + b)[1..] == a[1..] + b;
      PlainAppend(a[1..], b);
    } else {
      assert a + b == b;
    }
  }

  lemma {:induction false} TextOfAppend(a: seq<Out>, b: seq<Out>)
    ensures TextOf(a + b) == TextOf(a) + TextOf(b)
  {
    if a != [] {
      assert (a + b)[1..] == a[1..] + b;
      TextOfAppend(a[1..], b);
    } else {
      assert a + b == b;
    }
  }

  lemma {:induction false} BreaksAppend(a: seq<Out>, b: seq<Out>)
    ensures Breaks(a + b) == Breaks(a) + Breaks(b)
  {
    if a != [] {
      assert (a + b)[1..] == a[1..] + b;
      BreaksAppend(a[1..], b);
    } else {
      assert a + b == b;
    }
  }

  lemma {:induction false} CountAppend(a: string, b: string, c: char)
    ensures Count(a + b, c) == Count(a, c) + Count(b, c)
  {
    if a != [] {
      assert (a + b)[1..] == a[1..] + b;
      CountAppend(a[1..], b, c);
    } else {
      assert a + b == b;
    }
  }

  lemma {:induction false} WithoutNewlinesAppend(a: string, b: string)
    ensures WithoutNewlines(a + b) == WithoutNewlines(a) + WithoutNewlines(b)
  {
    if a != [] {
      assert (a + b)[1..] == a[1..] + b;
      WithoutNewlinesAppend(a[1..], b);
    } else {
      assert a + b == b;
    }
  }

  /** A string without newlines is left alone by `WithoutNewlines` and counts none. */
  lemma {:induction false} NoNewlines(s: string)
    requires '\n' !in s
    ensures WithoutNewlines(s) == s && Count(s, '\n') == 0
  {
    if s != [] {
      assert s == [s[0]] + s[1..];
      NoNewlines(s[1..]);
    }
  }

  lemma {:induction false} JoinSnoc(lines: seq<string>, l: string)
    requires |lines| >= 1
    ensures Join(lines + [l]) == Join(lines) + "\n" + l
  {
    if |lines| > 1 {
      assert (lines + [l])[1..] == lines[1..] + [l];
      JoinSnoc(lines[1..], l);
    }
  }

  /**
   * Markup whose text payloads hold no newline has, as text payloads, its
   * plain text without newlines, and one `br/` per newline of its plain text.
   */
  lemma {:induction false} TextAndBreaksOfPlain(ms: seq<Out>)
    requires LineFree(ms)
    ensures TextOf(ms) == WithoutNewlines(Plain(ms))
    ensures Breaks(ms) == Count(Plain(ms), '\n')
  {
    if ms != [] {
      var head := match ms[0] case Text(s) => s case Br => "\n" case _ => "";
      assert Plain(ms) == head + Plain(ms[1..]);
      TextAndBreaksOfPlain(ms[1..]);
      WithoutNewlinesAppend(head, Plain(ms[1..]));
      CountAppend(head, Plain(ms[1..]), '\n');
      if ms[0].Text? {
        NoNewlines(head);
      } else if ms[0].Br? {
        assert WithoutNewlines(head) == [] && Count(head, '\n') == 1;
      }
    }
  }

  /** The markup of lines holds only text and line breaks, and keeps the lines' newline-freedom. */
  lemma {:induction false} MarkLinesShape(lines: seq<string>)
    requires forall k | 0 <= k < |lines| :: '\n' !in lines[k]
    ensures LineFree(MarkLines(lines)) && SpanFree(MarkLines(lines))
  {
    if |lines| > 1 {
      MarkLinesShape(lines[..|lines| - 1]);
    }
  }

  /** The markup of lines, in either order, holds only text and line breaks, and keeps the lines' newline-freedom. */
  lemma {:induction false} MarkLinesAsWrittenShape(lines: seq<string>)
    requires forall k | 0 <= k < |lines| :: '\n' !in lines[k]
    ensures LineFree(MarkLinesAsWritten(lines)) && SpanFree(MarkLinesAsWritten(lines))
  {
    if |lines| > 1 {
      MarkLinesAsWrittenShape(lines[..|lines| - 1]);
    }
  }

  /** The markup of lines shows them joined by newlines. */
  lemma {:induction false} MarkLinesPlain(lines: seq<string>)
    requires |lines| >= 1
    ensures Plain(MarkLines(lines)) == Join(lines)
  {
    if |lines| > 1 {
      var init := lines[..|lines| - 1];
      var last := lines[|lines| - 1];
      MarkLinesPlain(init);
      PlainAppend(MarkLines(init), [Br, Text(last)]);
      assert Plain([Br, Text(last)]) == "\n" + last by {
        assert Plain([Br, Text(last)][1..]) == last;
      }
      JoinSnoc(init, last);
      assert init + [last] == lines;
    }
  }

  /**
   * Rendering a chunk of text: the markup shows the chunk exactly, its text
   * payloads are the chunk without newlines, and there is one `br/` per
   * newline of the chunk.
   */
  lemma LineBreaksFaithful(content: string)
    ensures Plain(MarkLines(Split(content))) == content
    ensures TextOf(MarkLines(Split(content))) == WithoutNewlines(content)
    ensures Breaks(MarkLines(Split(content))) == Count(content, '\n')
    ensures LineFree(MarkLines(Split(content))) && SpanFree(MarkLines(Split(content)))
  {
    var lines := Split(content);
    SplitFacts(content);
    MarkLinesPlain(lines);
    MarkLinesShape(lines);
    TextAndBreaksOfPlain(MarkLines(lines));
  }

  /**
   * The code as written emits the same text payloads and the same number of
   * `br/` elements as the corrected rendering; only their order differs.
   */
  lemma {:induction false} AsWrittenSameTextAndBreaks(lines: seq<string>)
    ensures TextOf(MarkLinesAsWritten(lines)) == TextOf(MarkLines(lines))
    ensures Breaks(MarkLinesAsWritten(lines)) == Breaks(MarkLines(lines))
  {
    if |lines| > 1 {
      var init := lines[..|lines| - 1];
      var last := lines[|lines| - 1];
      AsWrittenSameTextAndBreaks(init);
      TextOfAppend(MarkLinesAsWritten(init), [Text(last), Br]);
      TextOfAppend(MarkLines(init), [Br, Text(last)]);
      BreaksAppend(MarkLinesAsWritten(init), [Text(last), Br]);
      BreaksAppend(MarkLines(init), [Br, Text(last)]);
    }
  }

  /**
   * The code as written misplaces line breaks: for the chunk "a\nb" it
   * shows "ab" followed by a line break instead of "a", a break, then "b".
   */
  lemma AsWrittenMisplacesBreak()
    ensures MarkLinesAsWritten(Split("a\nb")) == [Text("a"), Text("b"), Br]
    ensures Plain(MarkLinesAsWritten(Split("a\nb"))) != "a\nb"
    ensures MarkLines(Split("a\nb")) == [Text("a"), Br, Text("b")]
  {
    assert Split("b") == ["b"] by {
      assert "b"[1..] == "";
      assert Split("") == [""];
      assert ['b'] + "" == "b";
    }
    assert Split("\nb") == ["", "b"] by {
      assert "\nb"[1..] == "b";
    }
    assert Split("a\nb") == ["a", "b"] by {
      assert "a\nb"[1..] == "\nb";
      assert "a\nb"[0] == 'a';
      var rest := Split("\nb");
      assert rest[0] == "" && rest[1..] == ["b"];
      assert ['a'] + rest[0] == "a";
    }
    var ms := [Text("a"), Text("b"), Br];
    assert Plain(ms) == "ab\n" by {
      assert Plain(ms[2..]) == "\n";
      assert Plain(ms[1..]) == "b\n";
    }
  }

  /**
   * As written, the rendering of a chunk still hands on the chunk's text
   * without its newlines, one `br/` per newline, no span, and no text node
   * holding a newline.
   */
  lemma AsWrittenTextAndBreaks(content: string)
    ensures TextOf(MarkLinesAsWritten(Split(content))) == WithoutNewlines(content)
    ensures Breaks(MarkLinesAsWritten(Split(content))) == Count(content, '\n')
    ensures LineFree(MarkLinesAsWritten(Split(content))) && SpanFree(MarkLinesAsWritten(Split(content)))
  {
    SplitFacts(content);
    LineBreaksFaithful(content);
    AsWrittenSameTextAndBreaks(Split(content));
    MarkLinesAsWrittenShape(Split(content));
  }

  /** The markup a run of chunks is rendered to, chunk after chunk, as written. */
  function ChunksMarkup(chunks: seq<string>): seq<Out> {
    if chunks == [] then [] else ChunksMarkup(chunks[..|chunks| - 1]) + MarkLinesAsWritten(Split(chunks[|chunks| - 1]))
  }

  /**
   * The markup of a run of chunks holds only text and line breaks; its text
   * payloads are the chunks' text without newlines, none holding a newline,
   * and it has one `br/` per newline of that text.
   */
  lemma {:induction false} ChunksMarkupFacts(chunks: seq<string>)
    ensures TextOf(ChunksMarkup(chunks)) == WithoutNewlines(Concat(chunks))
    ensures Breaks(ChunksMarkup(chunks)) == Count(Concat(chunks), '\n')
    ensures LineFree(ChunksMarkup(chunks)) && SpanFree(ChunksMarkup(chunks))
  {
    if chunks != [] {
      var init, last := chunks[..|chunks| - 1], chunks[|chunks| - 1];
      var ms := MarkLinesAsWritten(Split(last));
      ChunksMarkupFacts(init);
      AsWrittenTextAndBreaks(last);
      TextOfAppend(ChunksMarkup(init), ms);
      BreaksAppend(ChunksMarkup(init), ms);
      WithoutNewlinesAppend(Concat(init), last);
      CountAppend(Concat(init), last, '\n');
      LineFreeAppend(ChunksMarkup(init), ms);
      SpanFreeAppend(ChunksMarkup(init), ms);
    }
  }
}
