/** The line-start table of a text and the (line, column) it gives a
    character position: the table starts at 0 and holds the position after
    every newline; a position is placed on the line whose start is the last
    one at or before it, except that the final table entry is never chosen. */
module LineIndex {
  import opened Basics

  /** A line-start table: not empty, starting at 0, strictly increasing. */
  predicate LineTable(t: seq<nat>)
  {
    |t| > 0 && t[0] == 0 && forall i, j :: 0 <= i < j < |t| ==> t[i] < t[j]
  }

  /** The positions just after each newline of `text`, in increasing order. */
  function Breaks(text: string): (r: seq<nat>)
    ensures forall p :: p in r <==> 0 < p <= |text| && text[p - 1] == '\n'
    ensures forall i, j :: 0 <= i < j < |r| ==> r[i] < r[j]
    ensures forall i :: 0 <= i < |r| ==> 0 < r[i] <= |text|
    decreases |text|
  {
    if text == [] then []
    else
      var init := text[..|text| - 1];
      var b := Breaks(init);
      assert forall i :: 0 <= i < |init| ==> text[i] == init[i];
      assert forall i :: 0 <= i < |b| ==> b[i] < |text|;
      if text[|text| - 1] == '\n' then
        var r := b + [|text|];
        assert forall i :: 0 <= i < |b| ==> r[i] == b[i];
        r
      else b
  }

  /** The line starts of `text`: 0 and the position after every newline. */
  function LineStarts(text: string): seq<nat>
  {
    [0] + Breaks(text)
  }

  /** The table `countLines` builds: a valid line table with one entry per
      line, that is one more than the number of newlines, and whose entries
      are exactly 0 and the positions following a newline. */
  lemma LineStartsShape(text: string)
    ensures LineTable(LineStarts(text))
    ensures |LineStarts(text)| == Count(text, '\n') + 1
    ensures forall p :: p in LineStarts(text) <==> p == 0 || (0 < p <= |text| && text[p - 1] == '\n')
    ensures forall i :: 0 <= i < |LineStarts(text)| ==> LineStarts(text)[i] <= |text|
  {
    BreaksCount(text);
    var t := LineStarts(text);
    forall i, j | 0 <= i < j < |t| ensures t[i] < t[j] {
      if i > 0 {
        assert t[i] == Breaks(text)[i - 1] && t[j] == Breaks(text)[j - 1];
      } else {
        assert t[j] == Breaks(text)[j - 1];
      }
    }
  }

  lemma {:induction false} BreaksCount(text: string)
    ensures |Breaks(text)| == Count(text, '\n')
    decreases |text|
  {
    if text != [] {
      var init := text[..|text| - 1];
      BreaksCount(init);
      assert text == init + [text[|text| - 1]];
      CountAppend(init, [text[|text| - 1]], '\n');
      assert Count([text[|text| - 1]], '\n') == (if text[|text| - 1] == '\n' then 1 else 0) + Count([], '\n');
    }
  }

  /** The line `charPositionToLocation` reports, found by a left-to-right
      scan: the last entry at or before `pos`, never the final entry. */
  function LineOf(t: seq<nat>, pos: nat): (l: nat)
    requires LineTable(t)
    ensures l < |t| && t[l] <= pos
    ensures |t| >= 2 ==> l <= |t| - 2
  {
    LineFrom(t, pos, 0)
  }

  /** The scan from line `k` on, where every start up to `k` is at or
      before `pos`. */
  function LineFrom(t: seq<nat>, pos: nat, k: nat): (r: nat)
    requires LineTable(t)
    requires k < |t| && (|t| >= 2 ==> k <= |t| - 2)
    requires forall i :: 0 <= i <= k ==> t[i] <= pos
    ensures k <= r < |t| && (|t| >= 2 ==> r <= |t| - 2)
    ensures forall i :: 0 <= i <= r ==> t[i] <= pos
    ensures forall i :: r < i < |t| - 1 ==> pos < t[i]
    decreases |t| - k
  {
    if k + 1 < |t| - 1 && t[k + 1] <= pos then LineFrom(t, pos, k + 1) else k
  }

  /** Whenever `k` is a line whose start is at or before `pos` and the next
      inner start (if any) is after it, `k` is the line reported. */
  lemma LineOfIs(t: seq<nat>, pos: nat, k: nat)
    requires LineTable(t)
    requires k < |t| && (|t| >= 2 ==> k <= |t| - 2)
    requires t[k] <= pos
    requires k + 1 < |t| - 1 ==> pos < t[k + 1]
    ensures LineOf(t, pos) == k
  {
  }

  /** `charPositionToLocation(pos)`: the reported line and the offset of
      `pos` from that line's start. */
  function Locate(t: seq<nat>, pos: nat): (r: (nat, nat))
    requires LineTable(t)
    ensures r.0 < |t| && t[r.0] + r.1 == pos
  {
    var l := LineOf(t, pos);
    (l, pos - t[l])
  }

  /** Below the last table entry the reported line is the right one: its
      start is at or before `pos` and the next line starts after it. */
  lemma LocateCorrect(t: seq<nat>, pos: nat)
    requires LineTable(t) && |t| >= 2 && pos < t[|t| - 1]
    ensures var l := Locate(t, pos).0;
            l + 1 < |t| && t[l] <= pos < t[l + 1]
  {
  }

  /** The search never reports the final entry's line: at or after the last
      line start, a table of two or more entries reports the line before. */
  lemma LocatePastLast(t: seq<nat>, pos: nat)
    requires LineTable(t) && |t| >= 2 && t[|t| - 1] <= pos
    ensures Locate(t, pos).0 == |t| - 2
  {
    LineOfIs(t, pos, |t| - 2);
  }
}
