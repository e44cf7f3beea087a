/**
 * The feature extractor of ner-eval/feature_digger.py: a SAX content
 * handler that forwards every text chunk unchanged and reports, for each
 * confirmed named entity, the character interval it covers in that text
 * and its anonymized label. The two callbacks are replaced by the lists of
 * what they were handed.
 */
module FeatureDigger {
  import opened Wrappers
  import opened Texts

  /** The attributes of an `ne` start the handler reads: `status` and `anonymizedlabel`. */
  datatype NeAttrs = NeAttrs(status: string, anonymizedLabel: Option<string>)

  /** A parsing event as the SAX parser delivers it. */
  datatype Event =
    | StartTag(name: string, attrs: NeAttrs)
    | Chars(content: string)
    | EndTag(name: string)

  /** A pending feature: where its text starts and its label. */
  datatype Feature = Feature(start: nat, entityLabel: Option<string>)

  /** What the feature callback is handed: `(start, end, label)`. */
  datatype Emitted = Emitted(start: nat, end: nat, entityLabel: Option<string>)

  /** The status of an entity the reviewers confirmed: `status.startswith("confirmed")`. */
  predicate Confirmed(attrs: NeAttrs) {
    "confirmed" <= attrs.status
  }

  /** Every interval is non-empty, and each starts no earlier than the previous one ends. */
  predicate Ordered(fs: seq<Emitted>) {
    (forall i | 0 <= i < |fs| :: fs[i].start < fs[i].end)
    && (forall i, j | 0 <= i < j < |fs| :: fs[i].end <= fs[j].start)
  }

  class FeatureParser {
    /** `_possition`: the number of characters seen so far. */
    var position: nat
    /** `_current`: the confirmed entity whose end is awaited. */
    var current: Option<Feature>
    /** Everything handed to the feature callback, in order. */
    var features: seq<Emitted>
    /** Everything handed to the text callback, in order. */
    var text: seq<string>

    /**
     * The position is the length of the text forwarded so far; the reported
     * intervals are ordered, disjoint and within that text; a pending
     * feature starts within it and after every reported interval.
     */
    ghost predicate Valid()
      reads this
    {
      position == |Concat(text)|
      && Ordered(features)
      && (forall i | 0 <= i < |features| :: features[i].end <= position)
      && (current.Some? ==>
            current.value.start <= position
            && forall i | 0 <= i < |features| :: features[i].end <= current.value.start)
    }

    /** `__init__`: at position 0, nothing pending and nothing handed on. */
    constructor ()
      ensures Valid()
      ensures position == 0 && current == None && features == [] && text == []
    {
      position, current := 0, None;
      features, text := [], [];
    }

    /**
     * `startElement`: a confirmed `ne` becomes the pending feature, starting
     * at the current position and replacing any pending one; every other
     * start changes nothing.
     */
    method StartElement(tag: string, attrs: NeAttrs)
      requires Valid()
      modifies this
      ensures Valid()
      ensures current == if tag == "ne" && Confirmed(attrs) then Some(Feature(position, attrs.anonymizedLabel)) else old(current)
      ensures position == old(position) && features == old(features) && text == old(text)
    {
      if tag == "ne" {
        if Confirmed(attrs) {
          current := Some(Feature(position, attrs.anonymizedLabel));
        }
      }
    }

    /** `characters`: the position advances by the chunk's length and the chunk is handed on unchanged. */
    method Characters(content: string)
      requires Valid()
      modifies this
      ensures Valid()
      ensures position == old(position) + |content| && text == old(text) + [content]
      ensures current == old(current) && features == old(features)
    {
      ConcatSnoc(text, content);
      position := position + |content|;
      text := text + [content];
    }

    /**
     * `endElement`: an `ne` end reports the pending feature, ending at the
     * current position, and clears it, provided some text has been seen
     * since it started; with no text since, the feature stays pending and
     * nothing is reported.
     */
    method EndElement(tag: string)
      requires Valid()
      modifies this
      ensures Valid()
      ensures tag == "ne" && old(current).Some? && position > old(current).value.start ==>
                features == old(features) + [Emitted(old(current).value.start, position, old(current).value.entityLabel)]
                && current == None
      ensures !(tag == "ne" && old(current).Some? && position > old(current).value.start) ==>
                features == old(features) && current == old(current)
      ensures position == old(position) && text == old(text)
    {
      if tag == "ne" && current.Some? {
        if position > current.value.start {
          features := features + [Emitted(current.value.start, position, current.value.entityLabel)];
          current := None;
        }
      }
    }
  }

  /** The text chunks among the events, in order. */
  function Chunks(events: seq<Event>): seq<string> {
    if events == [] then []
    else
      var last := events[|events| - 1];
      Chunks(events[..|events| - 1]) + if last.Chars? then [last.content] else []
  }

  /** The position at which event `i` is handled: the length of the text before it. */
  function Offset(events: seq<Event>, i: nat): nat
    requires i <= |events|
  {
    |Concat(Chunks(events[..i]))|
  }

  predicate ConfirmedStart(e: Event) {
    e.StartTag? && e.name == "ne" && Confirmed(e.attrs)
  }

  /** Event `i` is the confirmed `ne` start that makes `f` pending. */
  predicate Opens(events: seq<Event>, i: nat, f: Feature) {
    i < |events| && ConfirmedStart(events[i])
    && f == Feature(Offset(events, i), events[i].attrs.anonymizedLabel)
  }

  /**
   * The confirmed `ne` start `i` is still pending when event `j` is
   * handled: no confirmed `ne` start came after it, and every `ne` end
   * since came before any text, so none of them reported it.
   */
  predicate Pending(events: seq<Event>, i: nat, j: nat)
    requires j <= |events|
  {
    i < j && ConfirmedStart(events[i]) && NoStartBetween(events, i, j)
    && forall m | i < m < j :: events[m] == EndTag("ne") ==> Offset(events, m) == Offset(events, i)
  }

  /** No confirmed `ne` start lies strictly between events `i` and `k`. */
  predicate NoStartBetween(events: seq<Event>, i: nat, k: nat)
    requires k <= |events|
  {
    forall m | i < m < k :: !ConfirmedStart(events[m])
  }

  /** The feature the `ne` end `j` reports for the pending start `i`. */
  function FeatureAt(events: seq<Event>, i: nat, j: nat): Emitted
    requires i < j <= |events| && events[i].StartTag?
  {
    Emitted(Offset(events, i), Offset(events, j), events[i].attrs.anonymizedLabel)
  }

  /**
   * `f` was reported at an `ne` end `j` for the confirmed `ne` start `i`
   * still pending there, with text between the two: it runs from the
   * position at `i` to the position at `j` and carries the label of `i`.
   */
  predicate Reported(events: seq<Event>, f: Emitted) {
    exists i, j | 0 <= i < j < |events| ::
      && Pending(events, i, j)
      && events[j] == EndTag("ne")
      && Offset(events, i) < Offset(events, j)
      && f == FeatureAt(events, i, j)
  }

  /** Every feature was reported for the events (see Reported). */
  predicate AllReported(events: seq<Event>, fs: seq<Emitted>) {
    forall i | 0 <= i < |fs| :: Reported(events, fs[i])
  }

  /**
   * Every `ne` end among the first `k` events that finds a confirmed start
   * pending, with text since, has reported it.
   */
  predicate AllFound(events: seq<Event>, fs: seq<Emitted>, k: nat)
    requires k <= |events|
  {
    forall i, j | 0 <= i < j < k && Pending(events, i, j) && events[j] == EndTag("ne") && Offset(events, i) < Offset(events, j) ::
      FeatureAt(events, i, j) in fs
  }

  /** No confirmed start is pending when event `k` is handled. */
  predicate NonePending(events: seq<Event>, k: nat)
    requires k <= |events|
  {
    forall i | 0 <= i < k :: !Pending(events, i, k)
  }

  lemma ChunksSnoc(events: seq<Event>, k: nat)
    requires k < |events|
    ensures Chunks(events[..k + 1]) == Chunks(events[..k]) + if events[k].Chars? then [events[k].content] else []
  {
    assert events[..k + 1][..k] == events[..k];
  }

  /**
   * Runs the handler over a parsed document. The text output is the
   * document's chunks, in order and unchanged. The features come out in
   * order, non-empty, disjoint and within the text, and they are exactly
   * the reports of the document: each was reported at an `ne` end for the
   * confirmed `ne` start pending there, spanning exactly the text between
   * the two, and every `ne` end that finds a confirmed start pending with
   * text since reports it.
   */
  method Extract(events: seq<Event>) returns (features: seq<Emitted>, text: seq<string>)
    ensures text == Chunks(events)
    ensures Ordered(features)
    ensures forall i | 0 <= i < |features| :: features[i].end <= |Concat(text)|
    ensures AllReported(events, features)
    ensures AllFound(events, features, |events|)
  {
    var parser := new FeatureParser();
    ghost var origin: nat := 0;
    for k := 0 to |events|
      invariant parser.Valid()
      invariant parser.text == Chunks(events[..k])
      invariant parser.current.Some? ==> Opens(events, origin, parser.current.value) && Pending(events, origin, k)
      invariant parser.current.None? ==> NonePending(events, k)
      invariant AllReported(events, parser.features)
      invariant AllFound(events, parser.features, k)
    {
      ChunksSnoc(events, k);
      ghost var pending := parser.current;
      ghost var reported := parser.features;
      match events[k]
      case StartTag(name, attrs) =>
        parser.StartElement(name, attrs);
        if ConfirmedStart(events[k]) {
          origin := k;
        } else if pending.Some? {
          PendingExtends(events, origin, k);
        } else {
          NoneExtends(events, k);
        }
        FoundPastOther(events, reported, k);
      case Chars(content) =>
        parser.Characters(content);
        if pending.Some? {
          PendingExtends(events, origin, k);
        } else {
          NoneExtends(events, k);
        }
        FoundPastOther(events, reported, k);
      case EndTag(name) =>
        parser.EndElement(name);
        if parser.features != reported {
          ReportedAtEnd(events, origin, k, pending.value);
          AllReportedSnoc(events, reported, parser.features[|reported|]);
          FoundAtReport(events, reported, origin, k);
          NoneAfterReport(events, origin, k);
        } else if pending.Some? {
          if name == "ne" {
            FoundAtSilentEnd(events, reported, origin, k);
          } else {
            FoundPastOther(events, reported, k);
          }
          PendingExtends(events, origin, k);
        } else {
          if name == "ne" {
            FoundWhenNonePending(events, reported, k);
          } else {
            FoundPastOther(events, reported, k);
          }
          NoneExtends(events, k);
        }
    }
    assert events[..|events|] == events;
    features, text := parser.features, parser.text;
  }

  lemma NoStartExtends(events: seq<Event>, i: nat, k: nat)
    requires k < |events| && i < k && NoStartBetween(events, i, k) && !ConfirmedStart(events[k])
    ensures NoStartBetween(events, i, k + 1)
  {
  }

  /** A pending start stays pending past any event but a confirmed start or an `ne` end after text. */
  lemma PendingExtends(events: seq<Event>, i: nat, k: nat)
    requires k < |events| && Pending(events, i, k) && !ConfirmedStart(events[k])
    requires events[k] == EndTag("ne") ==> Offset(events, k) == Offset(events, i)
    ensures Pending(events, i, k + 1)
  {
    NoStartExtends(events, i, k);
  }

  /** At most one confirmed start is pending at a time: the last one. */
  lemma PendingUnique(events: seq<Event>, i: nat, i': nat, k: nat)
    requires k <= |events| && Pending(events, i, k) && Pending(events, i', k)
    ensures i == i'
  {
  }

  /** With nothing pending, only a confirmed start makes something pending. */
  lemma NoneExtends(events: seq<Event>, k: nat)
    requires k < |events| && NonePending(events, k) && !ConfirmedStart(events[k])
    ensures NonePending(events, k + 1)
  {
    var n := k + 1;
    forall i | 0 <= i < n
      ensures !Pending(events, i, n)
    {
      if i < k {
        assert !Pending(events, i, k);
      }
    }
  }

  /** Once the pending start is reported, nothing is pending. */
  lemma NoneAfterReport(events: seq<Event>, i: nat, k: nat)
    requires k < |events| && Pending(events, i, k) && events[k] == EndTag("ne")
    requires Offset(events, i) < Offset(events, k)
    ensures NonePending(events, k + 1)
  {
  }

  /** An event other than an `ne` end reports nothing new. */
  lemma FoundPastOther(events: seq<Event>, fs: seq<Emitted>, k: nat)
    requires k < |events| && AllFound(events, fs, k) && events[k] != EndTag("ne")
    ensures AllFound(events, fs, k + 1)
  {
  }

  /** An `ne` end with nothing pending has nothing to report. */
  lemma FoundWhenNonePending(events: seq<Event>, fs: seq<Emitted>, k: nat)
    requires k < |events| && AllFound(events, fs, k) && NonePending(events, k)
    ensures AllFound(events, fs, k + 1)
  {
  }

  /** An `ne` end with no text since the pending start has nothing to report. */
  lemma FoundAtSilentEnd(events: seq<Event>, fs: seq<Emitted>, i: nat, k: nat)
    requires k < |events| && AllFound(events, fs, k) && Pending(events, i, k)
    requires Offset(events, k) == Offset(events, i)
    ensures AllFound(events, fs, k + 1)
  {
    forall i' | 0 <= i' < k && Pending(events, i', k)
      ensures Offset(events, i') == Offset(events, k)
    {
      PendingUnique(events, i, i', k);
    }
  }

  /** An `ne` end with text since the pending start reports exactly that start. */
  lemma FoundAtReport(events: seq<Event>, fs: seq<Emitted>, i: nat, k: nat)
    requires k < |events| && AllFound(events, fs, k) && Pending(events, i, k)
    requires events[k] == EndTag("ne") && Offset(events, i) < Offset(events, k)
    ensures AllFound(events, fs + [FeatureAt(events, i, k)], k + 1)
  {
    var fs' := fs + [FeatureAt(events, i, k)];
    forall i', j | 0 <= i' < j < k + 1 && Pending(events, i', j) && events[j] == EndTag("ne") && Offset(events, i') < Offset(events, j)
      ensures FeatureAt(events, i', j) in fs'
    {
      if j == k {
        PendingUnique(events, i, i', k);
        assert fs'[|fs|] == FeatureAt(events, i, k);
      } else {
        assert FeatureAt(events, i', j) in fs;
      }
    }
  }

  lemma AllReportedSnoc(events: seq<Event>, fs: seq<Emitted>, f: Emitted)
    requires AllReported(events, fs) && Reported(events, f)
    ensures AllReported(events, fs + [f])
  {
    assert forall i | 0 <= i < |fs| :: (fs + [f])[i] == fs[i];
  }

  /** An `ne` end reports the pending feature, from its start event up to the position the end is handled at. */
  lemma ReportedAtEnd(events: seq<Event>, i: nat, k: nat, pending: Feature)
    requires k < |events| && events[k] == EndTag("ne")
    requires Opens(events, i, pending) && Pending(events, i, k) && pending.start < Offset(events, k)
    ensures Reported(events, Emitted(pending.start, Offset(events, k), pending.entityLabel))
  {
    assert FeatureAt(events, i, k) == Emitted(pending.start, Offset(events, k), pending.entityLabel);
  }
}
