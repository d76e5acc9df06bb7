/**
 * The syntax highlighter of the regular-expression toolbox. Every token's
 * pattern is matched against the text; the matches are ordered by start,
 * longest first, and kept greedily when they do not overlap a match kept
 * before; the text is then cut into plain pieces and painted spans.
 */
module Highlight {
  import opened Sorting

  /** A match of one token's pattern: the characters `start..end` of the text, painted `color`. */
  datatype Candidate = Candidate(start: nat, end: nat, color: string)

  /** A piece of the output: plain text, or a `<span>` of that class around its text. */
  datatype Segment = Plain(text: string) | Styled(color: string, text: string)

  /** Every candidate names characters of a text of length `n`, as a match of that text does. */
  predicate Within(cands: seq<Candidate>, n: nat) {
    forall i :: 0 <= i < |cands| ==> cands[i].start <= cands[i].end <= n
  }

  /** The `matches` list: every candidate that is not empty, in the order found. */
  function Collected(cands: seq<Candidate>): seq<Candidate> {
    if cands == [] then []
    else
      var c := cands[|cands| - 1];
      Collected(cands[..|cands| - 1]) + (if c.end - c.start == 0 then [] else [c])
  }

  /** The comparator `a.start - b.start || b.end - a.end`: earlier start first, then longer first. */
  predicate SpanOrder(a: Candidate, b: Candidate) {
    a.start < b.start || (a.start == b.start && a.end >= b.end)
  }

  /** The matches in the order the greedy pass considers them. */
  function Considered(cands: seq<Candidate>): seq<Candidate> {
    Sort(Collected(cands), SpanOrder)
  }

  /** The greedy pass: a match is kept when it starts at or after `lastEnd`, the end of the last one kept. */
  function Keep(ms: seq<Candidate>, lastEnd: int): seq<Candidate> {
    if ms == [] then []
    else if ms[0].start >= lastEnd then [ms[0]] + Keep(ms[1..], ms[0].end)
    else Keep(ms[1..], lastEnd)
  }

  /** Spans inside a text of length `n`, none before `lastEnd`, each ending before the next begins. */
  predicate Chain(ks: seq<Candidate>, lastEnd: int, n: nat) {
    0 <= lastEnd <= n &&
    (forall i :: 0 <= i < |ks| ==> lastEnd <= ks[i].start <= ks[i].end <= n) &&
    (forall i, j :: 0 <= i < j < |ks| ==> ks[i].end <= ks[j].start)
  }

  /** The output loop: the plain text before each kept span, the span, and what is left at the end. */
  function Render(text: string, ks: seq<Candidate>, lastEnd: int): seq<Segment>
    requires Chain(ks, lastEnd, |text|)
    decreases |ks|
  {
    if ks == [] then (if lastEnd < |text| then [Plain(text[lastEnd..])] else [])
    else Piece(text, ks[0], lastEnd) + Render(text, ks[1..], ks[0].end)
  }

  /** `highlight(text, tokens)` once the tokens' matches are known; an empty text gives nothing. */
  function Highlighted(text: string, cands: seq<Candidate>): seq<Segment>
    requires Within(cands, |text|)
  {
    if text == "" then []
    else
      ConsideredWithin(cands, |text|);
      KeepChain(Considered(cands), 0, |text|);
      Render(text, Keep(Considered(cands), 0), 0)
  }

  method HighlightText(text: string, cands: seq<Candidate>) returns (r: seq<Segment>)
    requires Within(cands, |text|)
    ensures r == Highlighted(text, cands)
  {
    if text == "" {
      return [];
    }
    var matches := CollectMatches(cands);
    var sorted := Sort(matches, SpanOrder);
    var filtered := KeepGreedy(sorted);
    assert sorted == Considered(cands);
    ConsideredWithin(cands, |text|);
    KeepChain(sorted, 0, |text|);
    r := RenderSegments(text, filtered);
  }

  /** The `forEach` over the tokens: every non-empty match is pushed. */
  method CollectMatches(cands: seq<Candidate>) returns (matches: seq<Candidate>)
    ensures matches == Collected(cands)
  {
    matches := [];
    for i := 0 to |cands|
      invariant matches == Collected(cands[..i])
    {
      assert cands[..i + 1][..i] == cands[..i];
      if cands[i].end - cands[i].start != 0 {
        matches := matches + [cands[i]];
      }
    }
    assert cands[..|cands|] == cands;
  }

  /** The first `lastEnd` loop, filling `filtered`. */
  method KeepGreedy(sorted: seq<Candidate>) returns (filtered: seq<Candidate>)
    ensures filtered == Keep(sorted, 0)
  {
    filtered := [];
    var lastEnd := 0;
    for i := 0 to |sorted|
      invariant filtered + Keep(sorted[i..], lastEnd) == Keep(sorted, 0)
    {
      assert sorted[i..][1..] == sorted[i + 1..];
      var m := sorted[i];
      if m.start >= lastEnd {
        filtered := filtered + [m];
        lastEnd := m.end;
      }
    }
    assert sorted[|sorted|..] == [];
  }

  /** The second `lastEnd` loop, filling `result`. */
  method RenderSegments(text: string, filtered: seq<Candidate>) returns (r: seq<Segment>)
    requires Chain(filtered, 0, |text|)
    ensures r == Render(text, filtered, 0)
  {
    r := [];
    var lastEnd := 0;
    assert filtered[0..] == filtered;
    for i := 0 to |filtered|
      invariant Chain(filtered[i..], lastEnd, |text|)
      invariant r + Render(text, filtered[i..], lastEnd) == Render(text, filtered, 0)
    {
      var m := filtered[i];
      RenderAdvance(text, filtered, i, lastEnd);
      ghost var before := r;
      ghost var rest := Render(text, filtered[i + 1..], m.end);
      r := PushPiece(text, r, m, lastEnd);
      Regroup(before, Piece(text, m, lastEnd), rest);
      lastEnd := m.end;
    }
    if lastEnd < |text| {
      r := r + [Plain(text[lastEnd..])];
    }
  }

  /** The loop body's pushes for the kept match `m`: the plain text since `lastEnd`, if any, then `m`'s styled span. */
  method PushPiece(text: string, r: seq<Segment>, m: Candidate, lastEnd: int) returns (r': seq<Segment>)
    requires 0 <= lastEnd <= m.start <= m.end <= |text|
    ensures r' == r + Piece(text, m, lastEnd)
  {
    r' := r;
    if m.start > lastEnd {
      r' := r' + [Plain(text[lastEnd..m.start])];
    }
    r' := r' + [Styled(m.color, text[m.start..m.end])];
  }

  /** The segments one kept match adds at `lastEnd`: the plain text before it, if any, and its span. */
  function Piece(text: string, m: Candidate, lastEnd: int): seq<Segment>
    requires 0 <= lastEnd <= m.start <= m.end <= |text|
  {
    (if m.start > lastEnd then [Plain(text[lastEnd..m.start])] else []) + [Styled(m.color, text[m.start..m.end])]
  }

  lemma Regroup(a: seq<Segment>, b: seq<Segment>, c: seq<Segment>)
    ensures a + b + c == a + (b + c)
  {
  }

  /** `RenderStep` at position `i` of `filtered`. */
  lemma RenderAdvance(text: string, filtered: seq<Candidate>, i: nat, lastEnd: int)
    requires i < |filtered| && Chain(filtered[i..], lastEnd, |text|)
    ensures Chain(filtered[i + 1..], filtered[i].end, |text|)
    ensures Render(text, filtered[i..], lastEnd) ==
      Piece(text, filtered[i], lastEnd) + Render(text, filtered[i + 1..], filtered[i].end)
  {
    assert filtered[i..][1..] == filtered[i + 1..];
    RenderStep(text, filtered[i..], lastEnd);
  }

  /** Rendering a chain is the first match's piece followed by the rendering of the rest. */
  lemma RenderStep(text: string, ks: seq<Candidate>, lastEnd: int)
    requires Chain(ks, lastEnd, |text|) && ks != []
    ensures Chain(ks[1..], ks[0].end, |text|)
    ensures Render(text, ks, lastEnd) == Piece(text, ks[0], lastEnd) + Render(text, ks[1..], ks[0].end)
  {
    assert forall i :: 0 <= i < |ks[1..]| ==> ks[1..][i] == ks[i + 1];
  }

  // ---------------------------------------------------------------------
  // What the candidates become

  /** The collected matches are exactly the non-empty candidates. */
  lemma {:induction false} CollectedMembers(cands: seq<Candidate>)
    ensures forall c :: c in Collected(cands) <==> c in cands && c.end - c.start != 0
  {
    if cands != [] {
      var init := cands[..|cands| - 1];
      CollectedMembers(init);
      assert cands == init + [cands[|cands| - 1]];
    }
  }

  /** What the greedy pass considers: the non-empty candidates, by start and longest first. */
  lemma ConsideredOrder(cands: seq<Candidate>)
    ensures var ms := Considered(cands);
      (forall c :: c in ms <==> c in cands && c.end - c.start != 0) &&
      forall i, j :: 0 <= i < j < |ms| ==>
        ms[i].start <= ms[j].start && (ms[i].start == ms[j].start ==> ms[i].end >= ms[j].end)
  {
    var ms := Considered(cands);
    SortSorted(Collected(cands), SpanOrder);
    CollectedMembers(cands);
    forall c ensures c in ms <==> c in Collected(cands) {
      assert c in ms <==> c in multiset(ms);
      assert c in Collected(cands) <==> c in multiset(Collected(cands));
    }
  }

  /** The considered matches are non-empty and inside the text. */
  lemma ConsideredWithin(cands: seq<Candidate>, n: nat)
    requires Within(cands, n)
    ensures forall i :: 0 <= i < |Considered(cands)| ==>
      Considered(cands)[i].start < Considered(cands)[i].end <= n
  {
    ConsideredOrder(cands);
    var ms := Considered(cands);
    forall i | 0 <= i < |ms| ensures ms[i].start < ms[i].end <= n {
      assert ms[i] in ms;
      var k :| 0 <= k < |cands| && cands[k] == ms[i];
    }
  }

  /** Greedy keeping from `lastEnd` yields a chain of non-empty spans. */
  lemma {:induction false} KeepChain(ms: seq<Candidate>, lastEnd: int, n: nat)
    requires 0 <= lastEnd <= n
    requires forall i :: 0 <= i < |ms| ==> ms[i].start < ms[i].end <= n
    ensures Chain(Keep(ms, lastEnd), lastEnd, n)
    ensures forall i :: 0 <= i < |Keep(ms, lastEnd)| ==> Keep(ms, lastEnd)[i].start < Keep(ms, lastEnd)[i].end
    decreases |ms|
  {
    if ms != [] {
      var m := ms[0];
      assert forall i :: 0 <= i < |ms[1..]| ==> ms[1..][i] == ms[i + 1];
      if m.start >= lastEnd {
        KeepChain(ms[1..], m.end, n);
        var rest := Keep(ms[1..], m.end);
        assert Keep(ms, lastEnd) == [m] + rest;
      } else {
        KeepChain(ms[1..], lastEnd, n);
      }
    }
  }

  /** Every match the greedy pass drops starts inside a span it kept, or before `lastEnd`. */
  lemma {:induction false} DroppedOverlaps(ms: seq<Candidate>, lastEnd: int)
    requires forall i, j :: 0 <= i < j < |ms| ==> ms[i].start <= ms[j].start
    ensures forall c :: c in ms ==>
      c in Keep(ms, lastEnd) || c.start < lastEnd ||
      exists k :: k in Keep(ms, lastEnd) && k.start <= c.start < k.end
    decreases |ms|
  {
    if ms != [] {
      var m := ms[0];
      var tail := ms[1..];
      assert forall i :: 0 <= i < |tail| ==> tail[i] == ms[i + 1];
      assert forall c :: c in ms ==> c == m || c in tail;
      if m.start >= lastEnd {
        DroppedOverlaps(tail, m.end);
        DroppedAfterKept(ms, lastEnd);
      } else {
        DroppedOverlaps(tail, lastEnd);
      }
    }
  }

  /** The step of `DroppedOverlaps` when the first candidate is kept. */
  lemma DroppedAfterKept(ms: seq<Candidate>, lastEnd: int)
    requires ms != [] && ms[0].start >= lastEnd
    requires forall j :: 0 <= j < |ms| ==> ms[0].start <= ms[j].start
    requires forall c :: c in ms[1..] ==>
      c in Keep(ms[1..], ms[0].end) || c.start < ms[0].end ||
      exists k :: k in Keep(ms[1..], ms[0].end) && k.start <= c.start < k.end
    ensures forall c :: c in ms[1..] ==>
      c in Keep(ms, lastEnd) || exists k :: k in Keep(ms, lastEnd) && k.start <= c.start < k.end
  {
    var m := ms[0];
    var tail := ms[1..];
    assert Keep(ms, lastEnd) == [m] + Keep(tail, m.end);
    forall c | c in tail
      ensures c in Keep(ms, lastEnd) || exists k :: k in Keep(ms, lastEnd) && k.start <= c.start < k.end
    {
      var j :| 0 <= j < |tail| && tail[j] == c;
      assert c == ms[j + 1];
      if c !in Keep(tail, m.end) && c.start < m.end {
        assert m in Keep(ms, lastEnd);
      }
    }
  }

  /**
   * The spans kept are non-empty candidates in strictly increasing order,
   * each ending at or before the next begins; every non-empty candidate is
   * either kept or starts inside a kept span; an empty one is never kept.
   */
  lemma KeptSpans(text: string, cands: seq<Candidate>)
    requires Within(cands, |text|)
    ensures var ks := Keep(Considered(cands), 0);
      (forall i :: 0 <= i < |ks| ==> ks[i] in cands && ks[i].start < ks[i].end <= |text|) &&
      (forall i, j :: 0 <= i < j < |ks| ==> ks[i].end <= ks[j].start && ks[i].start < ks[j].start) &&
      (forall c :: c in cands && c.start == c.end ==> c !in ks) &&
      (forall c :: c in cands && c.start < c.end ==>
        c in ks || exists k :: k in ks && k.start <= c.start < k.end)
  {
    var ms := Considered(cands);
    var ks := Keep(ms, 0);
    ConsideredOrder(cands);
    ConsideredWithin(cands, |text|);
    KeepChain(ms, 0, |text|);
    KeepMembers(ms, 0);
    DroppedOverlaps(ms, 0);
  }

  /** The greedy pass only keeps matches it was given. */
  lemma {:induction false} KeepMembers(ms: seq<Candidate>, lastEnd: int)
    ensures forall k :: k in Keep(ms, lastEnd) ==> k in ms
    decreases |ms|
  {
    if ms != [] {
      KeepMembers(ms[1..], if ms[0].start >= lastEnd then ms[0].end else lastEnd);
    }
  }

  // ---------------------------------------------------------------------
  // What the output says

  /** The text a list of segments displays. */
  function Shown(segs: seq<Segment>): string {
    if segs == [] then "" else segs[0].text + Shown(segs[1..])
  }

  /** The painted spans of a list of segments, in order. */
  function StyledOnly(segs: seq<Segment>): seq<Segment> {
    if segs == [] then []
    else (if segs[0].Styled? then [segs[0]] else []) + StyledOnly(segs[1..])
  }

  lemma {:induction false} ShownAppend(a: seq<Segment>, b: seq<Segment>)
    ensures Shown(a + b) == Shown(a) + Shown(b)
    ensures StyledOnly(a + b) == StyledOnly(a) + StyledOnly(b)
  {
    if a == [] {
      assert a + b == b;
    } else {
      assert (a + b)[0] == a[0];
      assert (a + b)[1..] == a[1..] + b;
      ShownAppend(a[1..], b);
    }
  }

  /** The spans for kept matches, in order. */
  function Painted(text: string, ks: seq<Candidate>): seq<Segment>
    requires forall i :: 0 <= i < |ks| ==> ks[i].start <= ks[i].end <= |text|
  {
    if ks == [] then [] else [Styled(ks[0].color, text[ks[0].start..ks[0].end])] + Painted(text, ks[1..])
  }

  /** What one kept match adds at `lastEnd`: the plain text before it, if any, and its span. */
  lemma PieceShows(text: string, m: Candidate, lastEnd: int)
    requires 0 <= lastEnd <= m.start < m.end <= |text|
    ensures var piece := Piece(text, m, lastEnd);
      Shown(piece) == text[lastEnd..m.end] &&
      (forall i :: 0 <= i < |piece| ==> piece[i].text != "") &&
      StyledOnly(piece) == [Styled(m.color, text[m.start..m.end])]
  {
    var span := Styled(m.color, text[m.start..m.end]);
    assert Shown([span]) == text[m.start..m.end];
    assert StyledOnly([span]) == [span];
    if m.start > lastEnd {
      var plain := Plain(text[lastEnd..m.start]);
      ShownAppend([plain], [span]);
      assert Shown([plain]) == text[lastEnd..m.start];
      assert StyledOnly([plain]) == [];
      assert text[lastEnd..m.end] == text[lastEnd..m.start] + text[m.start..m.end];
    }
  }

  /**
   * Rendering a chain from `lastEnd` shows exactly the rest of the text,
   * with no empty segment, and paints exactly the kept spans, in order.
   */
  lemma {:induction false} RenderShows(text: string, ks: seq<Candidate>, lastEnd: int)
    requires Chain(ks, lastEnd, |text|)
    requires forall i :: 0 <= i < |ks| ==> ks[i].start < ks[i].end
    ensures var segs := Render(text, ks, lastEnd);
      Shown(segs) == text[lastEnd..] &&
      (forall i :: 0 <= i < |segs| ==> segs[i].text != "") &&
      StyledOnly(segs) == Painted(text, ks)
    decreases |ks|
  {
    if ks != [] {
      var tail := ks[1..];
      assert forall i :: 0 <= i < |tail| ==> tail[i] == ks[i + 1];
      RenderStep(text, ks, lastEnd);
      RenderShows(text, tail, ks[0].end);
      RenderShowsStep(text, ks, lastEnd);
    } else if lastEnd < |text| {
      assert Shown([Plain(text[lastEnd..])]) == text[lastEnd..];
    }
  }

  /** The step of `RenderShows` for a non-empty chain, given the rest of the chain rendered. */
  lemma RenderShowsStep(text: string, ks: seq<Candidate>, lastEnd: int)
    requires Chain(ks, lastEnd, |text|) && ks != [] && ks[0].start < ks[0].end
    requires forall i :: 0 <= i < |ks| ==> ks[i].start <= ks[i].end <= |text|
    requires Chain(ks[1..], ks[0].end, |text|)
    requires var segs := Render(text, ks[1..], ks[0].end);
      Shown(segs) == text[ks[0].end..] &&
      (forall i :: 0 <= i < |segs| ==> segs[i].text != "") &&
      StyledOnly(segs) == Painted(text, ks[1..])
    requires Render(text, ks, lastEnd) == Piece(text, ks[0], lastEnd) + Render(text, ks[1..], ks[0].end)
    ensures var segs := Render(text, ks, lastEnd);
      Shown(segs) == text[lastEnd..] &&
      (forall i :: 0 <= i < |segs| ==> segs[i].text != "") &&
      StyledOnly(segs) == Painted(text, ks)
  {
    var m := ks[0];
    var piece := Piece(text, m, lastEnd);
    var rest := Render(text, ks[1..], m.end);
    PieceShows(text, m, lastEnd);
    ShownAppend(piece, rest);
    SliceSplit(text, lastEnd, m.end);
  }

  lemma SliceSplit(text: string, a: nat, b: nat)
    requires a <= b <= |text|
    ensures text[a..] == text[a..b] + text[b..]
  {
  }

  /**
   * The highlighted output shows the text exactly, has no empty segment,
   * paints exactly the kept spans in order, and is empty for an empty text.
   */
  lemma HighlightReconstructs(text: string, cands: seq<Candidate>)
    requires Within(cands, |text|)
    ensures var segs := Highlighted(text, cands);
      var ks := Keep(Considered(cands), 0);
      Shown(segs) == text &&
      (text == "" ==> segs == []) &&
      (forall i :: 0 <= i < |segs| ==> segs[i].text != "") &&
      (text != "" ==> (Chain(ks, 0, |text|) && StyledOnly(segs) == Painted(text, ks)))
  {
    if text != "" {
      ConsideredWithin(cands, |text|);
      KeepChain(Considered(cands), 0, |text|);
      RenderShows(text, Keep(Considered(cands), 0), 0);
      assert text[0..] == text;
    }
  }
}
