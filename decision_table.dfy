/**
 * The decision index of the annotation filter (psan/annotate.py:188-200):
 * one Python dict per span start in the window, from span length to the
 * recorded decision. The database query is replaced by the list of rows it
 * returns.
 */
module DecisionTable {
  import opened Wrappers
  import opened Decisions

  /**
   * An annotation row: its span, its own decision, and the decision of the
   * rule it refers to (None when the LEFT JOIN finds no rule).
   */
  datatype Row = Row(refStart: int, refEnd: int, decision: Decision, ruleDecision: Option<Decision>)

  /** `COALESCE(rule.decision, annotation.decision)`: a rule's decision wins. */
  function Effective(row: Row): Decision {
    row.ruleDecision.GetOr(row.decision)
  }

  /**
   * A row written by a form submission shows, once read back through the
   * rule it may refer to, exactly the public/secret choice of the form.
   */
  lemma RecordedDecisionReadsBack(f: AnnotateForm, refStart: int, refEnd: int)
    ensures var v := Decide(f);
            var row := Row(refStart, refEnd, v.decision, if v.rule.Some? then Some(v.rule.value.decision) else None);
            Effective(row) == if ChoosesPublic(f) then Public else Secret
  {
  }

  /**
   * A Python dict from span length to decision. Python dicts keep their
   * keys in insertion order, and the filter relies on that order, so a dict
   * is a list of (key, value) entries with distinct keys.
   */
  type Slot = seq<(int, Decision)>

  predicate Keyed(d: Slot) {
    forall i, j | 0 <= i < j < |d| :: d[i].0 != d[j].0
  }

  /** `d.get(k)` */
  function Get(d: Slot, k: int): Option<Decision> {
    if d == [] then None else if d[0].0 == k then Some(d[0].1) else Get(d[1..], k)
  }

  /**
   * `d[k] = v`: a new key goes to the end; an existing key keeps its place
   * and only its value changes.
   */
  function Put(d: Slot, k: int, v: Decision): (r: Slot)
    requires Keyed(d)
    ensures Keyed(r)
    ensures Get(r, k) == Some(v)
    ensures forall k' | k' != k :: Get(r, k') == Get(d, k')
    ensures |r| == if Get(d, k).Some? then |d| else |d| + 1
    ensures forall i | 0 <= i < |d| :: r[i].0 == d[i].0
    ensures Get(d, k).None? ==> r[|d|] == (k, v)
  {
    if d == [] then
      [(k, v)]
    else if d[0].0 == k then
      KeyNotInTail(d);
      PutHead(d, v)
    else
      var rest := Put(d[1..], k, v);
      KeyNotInTail(d);
      PutCons(d, k, v, rest)
  }

  /** Overwriting the first key's value. */
  function PutHead(d: Slot, v: Decision): (r: Slot)
    requires d != [] && Keyed(d)
    requires forall j | 0 < j < |d| :: d[j].0 != d[0].0
    ensures Keyed(r) && |r| == |d|
    ensures Get(r, d[0].0) == Some(v)
    ensures forall k' | k' != d[0].0 :: Get(r, k') == Get(d, k')
    ensures forall i | 0 <= i < |d| :: r[i].0 == d[i].0
  {
    var r := [(d[0].0, v)] + d[1..];
    assert r[1..] == d[1..];
    r
  }

  /** Keeping the first entry in front of a tail into which `k` was put. */
  function PutCons(d: Slot, k: int, v: Decision, rest: Slot): (r: Slot)
    requires d != [] && Keyed(d) && d[0].0 != k
    requires forall j | 0 < j < |d| :: d[j].0 != d[0].0
    requires Keyed(rest) && Get(rest, k) == Some(v)
    requires forall k' | k' != k :: Get(rest, k') == Get(d[1..], k')
    requires |rest| == if Get(d[1..], k).Some? then |d| - 1 else |d|
    requires forall i | 0 <= i < |d| - 1 :: rest[i].0 == d[1..][i].0
    requires Get(d[1..], k).None? ==> rest[|d| - 1] == (k, v)
    ensures Keyed(r) && Get(r, k) == Some(v)
    ensures forall k' | k' != k :: Get(r, k') == Get(d, k')
    ensures |r| == if Get(d, k).Some? then |d| else |d| + 1
    ensures forall i | 0 <= i < |d| :: r[i].0 == d[i].0
    ensures Get(d, k).None? ==> r[|d|] == (k, v)
  {
    var r := [d[0]] + rest;
    assert r[1..] == rest;
    assert forall j | 0 <= j < |rest| :: rest[j].0 != d[0].0 by {
      forall j | 0 <= j < |rest|
        ensures rest[j].0 != d[0].0
      {
        if j < |d| - 1 {
          assert rest[j].0 == d[j + 1].0;
        } else {
          assert rest[j] == (k, v);
        }
      }
    }
    r
  }

  /** A keyed dict's first key does not occur again. */
  lemma KeyNotInTail(d: Slot)
    requires d != [] && Keyed(d)
    ensures forall j | 0 < j < |d| :: d[j].0 != d[0].0
  {
  }

  /** The number of slots for the window [windowStart, windowEnd]: `len(range(windowEnd - windowStart + 1))`. */
  function SlotCount(windowStart: int, windowEnd: int): nat {
    if windowEnd - windowStart + 1 > 0 then windowEnd - windowStart + 1 else 0
  }

  /** The dict of the span start `start`: every row starting there, put in row order. */
  function SlotFor(rows: seq<Row>, start: int): (d: Slot)
    ensures Keyed(d)
  {
    if rows == [] then []
    else
      var d := SlotFor(rows[..|rows| - 1], start);
      var row := rows[|rows| - 1];
      if row.refStart == start then Put(d, row.refEnd - row.refStart, Effective(row)) else d
  }

  /** The decision of the LAST row with the given start and length, if any. */
  function LastDecision(rows: seq<Row>, start: int, len: int): (r: Option<Decision>)
    ensures r.Some? <==> exists i | 0 <= i < |rows| :: rows[i].refStart == start && rows[i].refEnd - rows[i].refStart == len
  {
    if rows == [] then None
    else
      var row := rows[|rows| - 1];
      if row.refStart == start && row.refEnd - row.refStart == len then Some(Effective(row))
      else
        var r := LastDecision(rows[..|rows| - 1], start, len);
        assert forall i | 0 <= i < |rows| - 1 :: rows[..|rows| - 1][i] == rows[i];
        r
  }

  /**
   * Looking up a length in a start's dict gives the decision of the last row
   * with that start and length: a later row overwrites an earlier one.
   */
  lemma {:induction false} SlotLookup(rows: seq<Row>, start: int, len: int)
    ensures Get(SlotFor(rows, start), len) == LastDecision(rows, start, len)
  {
    if rows != [] {
      SlotLookup(rows[..|rows| - 1], start, len);
    }
  }

  /** Adding a row never moves the keys already in a dict. */
  lemma NewRowKeepsOrder(rows: seq<Row>, row: Row, start: int)
    ensures |SlotFor(rows, start)| <= |SlotFor(rows + [row], start)|
    ensures forall i | 0 <= i < |SlotFor(rows, start)| :: SlotFor(rows + [row], start)[i].0 == SlotFor(rows, start)[i].0
  {
    assert (rows + [row])[..|rows|] == rows;
  }

  /**
   * The decisions table of a window: one dict per slot, the slot of a span
   * start being its distance from the window start.
   */
  predicate IsDecisionTable(table: seq<Slot>, rows: seq<Row>, windowStart: int, windowEnd: int) {
    |table| == SlotCount(windowStart, windowEnd)
    && forall i | 0 <= i < |table| :: table[i] == SlotFor(rows, windowStart + i)
  }

  /**
   * `_get_decisions`: an empty dict per position of the window, then each
   * row the query returns (those starting inside the window) stored under
   * its start's slot and its length.
   */
  method GetDecisions(rows: seq<Row>, windowStart: int, windowEnd: int) returns (table: seq<Slot>)
    ensures IsDecisionTable(table, rows, windowStart, windowEnd)
  {
    var n := SlotCount(windowStart, windowEnd);
    table := seq(n, _ => []);
    for j := 0 to |rows|
      invariant |table| == n
      invariant forall i | 0 <= i < n :: table[i] == SlotFor(rows[..j], windowStart + i)
    {
      var row := rows[j];
      assert rows[..j + 1][..j] == rows[..j];
      if windowStart <= row.refStart <= windowEnd {
        var i := row.refStart - windowStart;
        table := table[i := Put(table[i], row.refEnd - row.refStart, Effective(row))];
      }
    }
    assert rows[..|rows|] == rows;
  }

  /** Python's `table[i]`: a negative index counts from the end; outside the list it raises IndexError (None). */
  function PyIndex(table: seq<Slot>, i: int): Option<Slot> {
    if 0 <= i < |table| then Some(table[i])
    else if -|table| <= i < 0 then Some(table[|table| + i])
    else None
  }

  /**
   * A span starting inside the window finds its own dict, and in it the
   * decision of the last row recorded for exactly that span; the table has
   * at most one slot per position of the window.
   */
  lemma InWindowLookup(table: seq<Slot>, rows: seq<Row>, windowStart: int, windowEnd: int, start: int, len: int)
    requires IsDecisionTable(table, rows, windowStart, windowEnd)
    requires windowStart <= start <= windowEnd
    ensures PyIndex(table, start - windowStart) == Some(SlotFor(rows, start))
    ensures Get(PyIndex(table, start - windowStart).value, len) == LastDecision(rows, start, len)
  {
    SlotLookup(rows, start, len);
  }

  predicate Decided(d: Decision) {
    d == Public || d == Secret
  }

  /** The index of the first entry, in insertion order, whose decision is public or secret. */
  function FirstDecided(d: Slot): (r: Option<nat>)
    ensures r.Some? ==> r.value < |d| && Decided(d[r.value].1)
    ensures r.Some? ==> forall j | 0 <= j < r.value :: !Decided(d[j].1)
    ensures r.None? ==> forall j | 0 <= j < |d| :: !Decided(d[j].1)
  {
    if d == [] then None
    else if Decided(d[0].1) then Some(0)
    else
      match FirstDecided(d[1..])
      case Some(i) => Some(i + 1)
      case None => None
  }
}
