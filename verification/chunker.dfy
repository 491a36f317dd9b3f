/**
 * The chunker of file ingestion (`split_text`): a window of `chunkSize`
 * characters slides over the text; when the window ends inside the text it is
 * cut just after a preferred break marker, and the next window starts
 * `overlap` characters before the cut.
 *
 * Two models are given. `PySplit` follows the Python loop step by step,
 * including Python's slicing of negative offsets, and is bounded by a fuel
 * count because the loop need not terminate. `Slide` describes the same loop
 * over non-negative offsets as a list of spans, for any rule `cutOf` saying
 * where the window from each offset ends, and stops with `Stalled` as soon as
 * a window fails to move the next start forward; `WindowsFrom` is the slide
 * under the break rule. `SourceAgrees` relates the two models when the slide
 * completes, and `SourceAfterStall` when it stalls: the loop then carries on
 * from the stalled window's next start. When that start equals the stalled
 * window's own, the loop never ends (`StalledDiverges`); when it is negative,
 * the loop emits an empty chunk and may skip text (`SourceStepsBack`,
 * `SourceDropsText`).
 *
 * The break rule takes a `floor`: a marker counts only when its last
 * occurrence in the window is at offset `floor` or later. The source's rule
 * is `floor == 0`; with `floor == overlap` every window moves forward
 * (`CorrectedCompletes`). The two rules give the same windows whenever the
 * source's span model completes (`CorrectedAgrees`); when it stalls they
 * differ, and the source's loop either never ends or steps back.
 */
module Chunker {
  import opened Wrappers
  import opened Strings

  /** The break markers, most preferred first. */
  const BreakMarkers: seq<string> := ["\n\n", "\n", ".", "!", "?", ",", " "]

  /** `RAG_CHUNK_SIZE` and `RAG_CHUNK_OVERLAP` as configured. */
  const DefaultChunkSize: int := 512
  const DefaultOverlap: int := 50

  /** Marker `k` has its last occurrence in `window` at offset `floor` or later. */
  predicate Qualifies(window: string, floor: int, k: nat)
    requires k < |BreakMarkers|
  {
    match LastIndexOf(window, BreakMarkers[k])
    case Some(p) => floor <= p
    case None => false
  }

  /** The earliest-listed marker, from index `m` on, that qualifies. */
  function FirstMarkerFrom(window: string, floor: int, m: nat): (r: Option<nat>)
    ensures r.Some? ==> m <= r.value < |BreakMarkers| && Qualifies(window, floor, r.value)
    decreases |BreakMarkers| - m
  {
    if m >= |BreakMarkers| then None
    else if Qualifies(window, floor, m) then Some(m)
    else FirstMarkerFrom(window, floor, m + 1)
  }

  /** If marker `k` qualifies, a marker is found, and it is listed no later than `k`. */
  lemma {:induction false} FirstMarkerIsFirst(window: string, floor: int, m: nat, k: nat)
    requires m <= k < |BreakMarkers| && Qualifies(window, floor, k)
    ensures FirstMarkerFrom(window, floor, m).Some?
    ensures FirstMarkerFrom(window, floor, m).value <= k
    decreases k - m
  {
    if m < k && !Qualifies(window, floor, m) {
      FirstMarkerIsFirst(window, floor, m + 1, k);
    }
  }

  /**
   * The offset of the break inside `window`: the last occurrence of the first
   * qualifying marker.
   */
  function Break(window: string, floor: int): (r: Option<nat>)
    ensures r.Some? ==> floor <= r.value < |window|
  {
    match FirstMarkerFrom(window, floor, 0)
    case Some(k) =>
      var p := LastIndexOf(window, BreakMarkers[k]);
      if p.Some? then Some(p.value) else None
    case None => None
  }

  /** A break exists exactly when some marker qualifies, and then it sits at an occurrence of one. */
  lemma BreakSpec(window: string, floor: int)
    ensures Break(window, floor).None? <==> forall k :: 0 <= k < |BreakMarkers| ==> !Qualifies(window, floor, k)
    ensures Break(window, floor).Some? ==>
      exists k :: 0 <= k < |BreakMarkers| && OccursAt(window, BreakMarkers[k], Break(window, floor).value)
  {
    if k :| 0 <= k < |BreakMarkers| && Qualifies(window, floor, k) {
      FirstMarkerIsFirst(window, floor, 0, k);
      var k0 := FirstMarkerFrom(window, floor, 0).value;
      assert OccursAt(window, BreakMarkers[k0], Break(window, floor).value);
    }
  }

  /**
   * A break the source's rule finds at offset `floor` or later is also the
   * break of the rule with that floor; and when the source's rule finds none,
   * neither does the other.
   */
  lemma BreakAgree(window: string, floor: int)
    requires 0 <= floor
    ensures Break(window, 0).Some? && floor <= Break(window, 0).value ==> Break(window, floor) == Break(window, 0)
    ensures Break(window, 0).None? ==> Break(window, floor).None?
  {
    var f := FirstMarkerFrom(window, floor, 0);
    var z := FirstMarkerFrom(window, 0, 0);
    if f.Some? {
      QualifiesAtZero(window, floor, f.value);
      FirstMarkerIsFirst(window, 0, 0, f.value);
    }
    if z.Some? && floor <= Break(window, 0).value {
      FirstMarkerIsFirst(window, floor, 0, z.value);
    }
  }

  /** A marker that qualifies above a non-negative floor qualifies under the source's rule. */
  lemma QualifiesAtZero(window: string, floor: int, k: nat)
    requires 0 <= floor && k < |BreakMarkers| && Qualifies(window, floor, k)
    ensures Qualifies(window, 0, k)
  {
  }

  /** The end of the window that starts at `start`, after the break rule. */
  function CutEnd(text: string, chunkSize: int, floor: int, start: nat): (cut: int)
    requires 0 < chunkSize && start < |text|
    ensures start < cut <= start + chunkSize
    ensures cut < start + chunkSize ==> start + chunkSize < |text| && start + floor < cut
  {
    var end := start + chunkSize;
    if end < |text| then
      match Break(text[start..end], floor)
      case Some(p) => start + p + 1
      case None => end
    else end
  }

  /** A window cut short ends just after an occurrence of a break marker. */
  lemma CutAfterMarker(text: string, chunkSize: int, floor: int, start: nat)
    requires 0 < chunkSize && start < |text|
    ensures CutEnd(text, chunkSize, floor, start) < start + chunkSize ==>
      exists k :: 0 <= k < |BreakMarkers| && OccursAt(text, BreakMarkers[k], CutEnd(text, chunkSize, floor, start) - 1)
  {
    var end := start + chunkSize;
    if end < |text| {
      var w := text[start..end];
      if Break(w, floor).Some? {
        var p := Break(w, floor).value;
        assert CutEnd(text, chunkSize, floor, start) == start + p + 1;
        BreakSpec(w, floor);
        var k :| 0 <= k < |BreakMarkers| && OccursAt(w, BreakMarkers[k], p);
        OccursInSlice(text, start, end, BreakMarkers[k], p);
        assert OccursAt(text, BreakMarkers[k], CutEnd(text, chunkSize, floor, start) - 1);
      } else {
        assert CutEnd(text, chunkSize, floor, start) == end;
      }
    } else {
      assert CutEnd(text, chunkSize, floor, start) == end;
    }
  }

  // ---------------------------------------------------------------------------
  // The slide over the text.

  /** One window: the chunk is `text[lo..min(cut, |text|)]`. */
  datatype Span = Span(lo: nat, cut: int)

  /** The end of a span's chunk in a text of length `n`. */
  function Hi(n: nat, s: Span): (h: int)
    ensures h <= n
    ensures h == n || h == s.cut
  {
    if s.cut < n then s.cut else n
  }

  /** Either every window was emitted, or the window at `at` did not move the next start past it. */
  datatype Outcome =
    | Complete(spans: seq<Span>)
    | Stalled(spans: seq<Span>, at: nat, next: int)

  /**
   * The windows of the loop over a text of length `n`, started at offset
   * `start`, where the window from offset `s` ends at `cutOf(s)`.
   */
  function Slide(n: nat, cutOf: nat -> int, overlap: int, start: nat): (r: Outcome)
    ensures r.Stalled? ==> |r.spans| > 0
    decreases n - start
  {
    if start >= n then Complete([])
    else
      var cut := cutOf(start);
      var next := cut - overlap;
      if next <= start then Stalled([Span(start, cut)], start, next)
      else
        match Slide(n, cutOf, overlap, next)
        case Complete(ss) => Complete([Span(start, cut)] + ss)
        case Stalled(ss, at, m) => Stalled([Span(start, cut)] + ss, at, m)
  }

  /** Every window from inside the text is non-empty and at most `chunkSize` long. */
  ghost predicate CutsBounded(n: nat, cutOf: nat -> int, chunkSize: int) {
    forall s: nat :: s < n ==> s < cutOf(s) <= s + chunkSize
  }

  /** Each span is a non-empty window of at most `chunkSize` characters starting inside the text. */
  ghost predicate Bounded(n: nat, chunkSize: int, spans: seq<Span>) {
    forall i :: 0 <= i < |spans| ==> spans[i].lo < n && spans[i].lo < spans[i].cut <= spans[i].lo + chunkSize
  }

  /** Each window starts `overlap` characters before the previous window's cut. */
  ghost predicate Chained(overlap: int, spans: seq<Span>) {
    forall i :: 0 <= i < |spans| - 1 ==> spans[i + 1].lo == spans[i].cut - overlap
  }

  /** A slide from inside the text opens with the window at `start`. */
  lemma SlideFirst(n: nat, cutOf: nat -> int, overlap: int, start: nat)
    requires start < n
    ensures var r := Slide(n, cutOf, overlap, start);
      |r.spans| > 0 && r.spans[0] == Span(start, cutOf(start))
  {
  }

  /** A slide whose first window does not move forward stalls right there. */
  lemma SlideStalls(n: nat, cutOf: nat -> int, overlap: int, start: nat)
    requires start < n && cutOf(start) - overlap <= start
    ensures Slide(n, cutOf, overlap, start) == Stalled([Span(start, cutOf(start))], start, cutOf(start) - overlap)
  {
  }

  /** In a completed slide, every window moves the next start forward. */
  lemma SlideCompleteMoves(n: nat, cutOf: nat -> int, overlap: int, start: nat)
    requires start < n && Slide(n, cutOf, overlap, start).Complete?
    ensures start < cutOf(start) - overlap
  {
  }

  /** A slide that moves forward is its first window followed by the slide from the next start. */
  lemma SlideUnfold(n: nat, cutOf: nat -> int, overlap: int, start: nat, next: nat)
    requires start < n && next == cutOf(start) - overlap && start < next
    ensures var r := Slide(n, cutOf, overlap, start);
      var rest := Slide(n, cutOf, overlap, next);
      && (r.Complete? <==> rest.Complete?)
      && r.spans == [Span(start, cutOf(start))] + rest.spans
      && (r.Stalled? ==> r.at == rest.at && r.next == rest.next)
  {
    var rest := Slide(n, cutOf, overlap, next);
    if rest.Complete? {
      assert Slide(n, cutOf, overlap, start) == Complete([Span(start, cutOf(start))] + rest.spans);
    } else {
      assert Slide(n, cutOf, overlap, start) == Stalled([Span(start, cutOf(start))] + rest.spans, rest.at, rest.next);
    }
  }

  /** Every window of a slide is a non-empty piece of at most `chunkSize` characters. */
  lemma {:induction false} SlideBounded(n: nat, cutOf: nat -> int, overlap: int, chunkSize: int, start: nat)
    requires CutsBounded(n, cutOf, chunkSize)
    ensures Bounded(n, chunkSize, Slide(n, cutOf, overlap, start).spans)
    decreases n - start
  {
    if start < n {
      var cut := cutOf(start);
      if start < cut - overlap {
        SlideBounded(n, cutOf, overlap, chunkSize, cut - overlap);
        SlideUnfold(n, cutOf, overlap, start, cut - overlap);
        var spans := Slide(n, cutOf, overlap, start).spans;
        var rest := Slide(n, cutOf, overlap, cut - overlap).spans;
        forall i | 0 <= i < |spans|
          ensures spans[i].lo < n && spans[i].lo < spans[i].cut <= spans[i].lo + chunkSize
        {
          if i > 0 {
            assert spans[i] == rest[i - 1];
          }
        }
      }
    }
  }

  /** Each window of a slide starts `overlap` characters before the previous window's cut. */
  lemma {:induction false} SlideChained(n: nat, cutOf: nat -> int, overlap: int, start: nat)
    ensures Chained(overlap, Slide(n, cutOf, overlap, start).spans)
    decreases n - start
  {
    if start < n {
      var cut := cutOf(start);
      if start < cut - overlap {
        SlideChained(n, cutOf, overlap, cut - overlap);
        SlideUnfold(n, cutOf, overlap, start, cut - overlap);
        var spans := Slide(n, cutOf, overlap, start).spans;
        var rest := Slide(n, cutOf, overlap, cut - overlap).spans;
        forall i | 0 <= i < |spans| - 1 ensures spans[i + 1].lo == spans[i].cut - overlap {
          assert spans[i + 1] == rest[i];
          if i > 0 {
            assert spans[i] == rest[i - 1];
          } else if |rest| > 0 {
            SlideFirst(n, cutOf, overlap, cut - overlap);
          }
        }
      }
    }
  }

  /**
   * How a slide ends: it is empty exactly when it starts past the text; a
   * completed slide's last window sends the next start past the text; a
   * stalled slide's last window is the one at `at`, and sends the next start
   * to `next`, no later than `at`.
   */
  lemma {:induction false} SlideEnds(n: nat, cutOf: nat -> int, overlap: int, start: nat)
    ensures var r := Slide(n, cutOf, overlap, start);
      && (r.Complete? && |r.spans| == 0 <==> start >= n)
      && (r.Complete? && |r.spans| > 0 ==> r.spans[|r.spans| - 1].cut - overlap >= n)
      && (r.Stalled? ==>
            && r.spans[|r.spans| - 1].lo == r.at
            && r.next == r.spans[|r.spans| - 1].cut - overlap <= r.at)
    decreases n - start
  {
    if start < n {
      var cut := cutOf(start);
      if start < cut - overlap {
        SlideEnds(n, cutOf, overlap, cut - overlap);
        SlideUnfold(n, cutOf, overlap, start, cut - overlap);
        var rest := Slide(n, cutOf, overlap, cut - overlap).spans;
        if |rest| > 0 {
          assert ([Span(start, cut)] + rest)[|rest|] == rest[|rest| - 1];
        }
      } else {
        SlideStalls(n, cutOf, overlap, start);
      }
    }
  }

  /** When every window moves the next start forward, the slide completes. */
  lemma {:induction false} SlideCompletes(n: nat, cutOf: nat -> int, overlap: int, start: nat)
    requires forall s: nat :: s < n ==> s < cutOf(s) - overlap
    ensures Slide(n, cutOf, overlap, start).Complete?
    decreases n - start
  {
    if start < n {
      var next := cutOf(start) - overlap;
      SlideCompletes(n, cutOf, overlap, next);
      SlideUnfold(n, cutOf, overlap, start, next);
    }
  }

  /** With a non-negative overlap, the chunks of a completed slide cover every offset of the text. */
  lemma {:induction false} SlideCovers(n: nat, cutOf: nat -> int, overlap: int, start: nat, x: int)
    requires 0 <= overlap
    requires Slide(n, cutOf, overlap, start).Complete?
    requires start <= x < n
    ensures var spans := Slide(n, cutOf, overlap, start).spans;
      exists i :: 0 <= i < |spans| && spans[i].lo <= x < Hi(n, spans[i])
    decreases n - start
  {
    var spans := Slide(n, cutOf, overlap, start).spans;
    var cut := cutOf(start);
    SlideCompleteMoves(n, cutOf, overlap, start);
    SlideUnfold(n, cutOf, overlap, start, cut - overlap);
    if x < Hi(n, Span(start, cut)) {
      assert spans[0] == Span(start, cut);
    } else {
      SlideCovers(n, cutOf, overlap, cut - overlap, x);
      var rest := Slide(n, cutOf, overlap, cut - overlap).spans;
      var i :| 0 <= i < |rest| && rest[i].lo <= x < Hi(n, rest[i]);
      assert spans[i + 1] == rest[i];
    }
  }

  /** With a non-negative overlap, the last chunk of a completed slide reaches the end of the text. */
  lemma SlideReachesEnd(n: nat, cutOf: nat -> int, overlap: int, start: nat)
    requires 0 <= overlap
    requires Slide(n, cutOf, overlap, start).Complete?
    requires |Slide(n, cutOf, overlap, start).spans| > 0
    ensures var spans := Slide(n, cutOf, overlap, start).spans;
      Hi(n, spans[|spans| - 1]) == n
  {
    SlideEnds(n, cutOf, overlap, start);
  }

  /**
   * Two rules that agree wherever the second moves the next start forward
   * give the same slide, as long as the second's slide completes.
   */
  lemma {:induction false} SlideAgree(n: nat, f: nat -> int, g: nat -> int, overlap: int, start: nat)
    requires Slide(n, g, overlap, start).Complete?
    requires forall s: nat :: s < n && s < g(s) - overlap ==> f(s) == g(s)
    ensures Slide(n, f, overlap, start) == Slide(n, g, overlap, start)
    decreases n - start
  {
    if start < n {
      var next := g(start) - overlap;
      SlideCompleteMoves(n, g, overlap, start);
      SlideAgree(n, f, g, overlap, next);
      SlideUnfold(n, f, overlap, start, next);
      SlideUnfold(n, g, overlap, start, next);
    }
  }

  // ---------------------------------------------------------------------------
  // The slide under the break rule.

  /** Where the window from each offset ends under the break rule with the given floor. */
  function Cuts(text: string, chunkSize: int, floor: int): nat -> int
    requires 0 < chunkSize
  {
    (s: nat) => if s < |text| then CutEnd(text, chunkSize, floor, s) else s + chunkSize
  }

  /** The cut rule keeps windows non-empty and short, and cuts short only past `floor`. */
  lemma CutsSpec(text: string, chunkSize: int, floor: int)
    requires 0 < chunkSize
    ensures CutsBounded(|text|, Cuts(text, chunkSize, floor), chunkSize)
    ensures forall s: nat :: s < |text| && Cuts(text, chunkSize, floor)(s) < s + chunkSize ==>
      s + floor < Cuts(text, chunkSize, floor)(s)
  {
  }

  /** The windows of the loop started at offset `start`. */
  function WindowsFrom(text: string, chunkSize: int, overlap: int, floor: int, start: nat): Outcome
    requires 0 < chunkSize
  {
    Slide(|text|, Cuts(text, chunkSize, floor), overlap, start)
  }

  /** The loop as the source writes it: every break qualifies. */
  function SourceWindows(text: string, chunkSize: int, overlap: int): Outcome
    requires 0 < chunkSize
  {
    WindowsFrom(text, chunkSize, overlap, 0, 0)
  }

  /** The corrected loop: a break counts only at offset `overlap` or later in the window. */
  function Windows(text: string, chunkSize: int, overlap: int): Outcome
    requires 0 < chunkSize
  {
    WindowsFrom(text, chunkSize, overlap, overlap, 0)
  }

  /** The text a span covers. */
  function Chunk(text: string, s: Span): string {
    if s.lo <= Hi(|text|, s) then text[s.lo..Hi(|text|, s)] else ""
  }

  /** The chunk texts of a list of spans. */
  function ChunksOf(text: string, spans: seq<Span>): (cs: seq<string>)
    ensures |cs| == |spans|
    ensures forall i :: 0 <= i < |spans| ==> cs[i] == Chunk(text, spans[i])
  {
    seq(|spans|, i requires 0 <= i < |spans| => Chunk(text, spans[i]))
  }

  /** With a break floor of `overlap`, every window moves forward, so the loop always ends. */
  lemma CorrectedCompletes(text: string, chunkSize: int, overlap: int, start: nat)
    requires 0 <= overlap < chunkSize
    ensures WindowsFrom(text, chunkSize, overlap, overlap, start).Complete?
  {
    var cutOf := Cuts(text, chunkSize, overlap);
    CutsSpec(text, chunkSize, overlap);
    forall s: nat | s < |text| ensures s < cutOf(s) - overlap {
      if cutOf(s) < s + chunkSize {
        assert s + overlap < cutOf(s);
      }
    }
    SlideCompletes(|text|, cutOf, overlap, start);
  }

  /** Where the source's window moves forward by more than `floor`, the floored rule cuts in the same place. */
  lemma CutEndAgree(text: string, chunkSize: int, floor: int, start: nat)
    requires 0 < chunkSize && start < |text| && 0 <= floor
    requires start + floor < CutEnd(text, chunkSize, 0, start)
    ensures CutEnd(text, chunkSize, floor, start) == CutEnd(text, chunkSize, 0, start)
  {
    var end := start + chunkSize;
    if end < |text| {
      var w := text[start..end];
      BreakAgree(w, floor);
      if Break(w, 0).Some? {
        assert CutEnd(text, chunkSize, 0, start) == start + Break(w, 0).value + 1;
        assert floor <= Break(w, 0).value;
        assert Break(w, floor) == Break(w, 0);
        assert CutEnd(text, chunkSize, floor, start) == start + Break(w, floor).value + 1;
      } else {
        assert Break(w, floor).None?;
        assert CutEnd(text, chunkSize, 0, start) == end;
        assert CutEnd(text, chunkSize, floor, start) == end;
      }
    } else {
      assert CutEnd(text, chunkSize, 0, start) == end;
      assert CutEnd(text, chunkSize, floor, start) == end;
    }
  }

  /**
   * Whenever the source's span model completes, that is whenever every
   * window moves the next start forward, the corrected loop produces the
   * same windows.
   */
  lemma CorrectedAgrees(text: string, chunkSize: int, overlap: int)
    requires 0 < chunkSize && 0 <= overlap
    requires SourceWindows(text, chunkSize, overlap).Complete?
    ensures Windows(text, chunkSize, overlap) == SourceWindows(text, chunkSize, overlap)
  {
    var f := Cuts(text, chunkSize, overlap);
    var g := Cuts(text, chunkSize, 0);
    forall s: nat | s < |text| && s < g(s) - overlap ensures f(s) == g(s) {
      CutEndAgree(text, chunkSize, overlap, s);
    }
    SlideAgree(|text|, f, g, overlap, 0);
  }

  /** A text no longer than `chunkSize - overlap` is one chunk, the text itself. */
  lemma OneChunk(text: string, chunkSize: int, overlap: int, floor: int)
    requires 0 <= overlap && 0 < |text| <= chunkSize - overlap
    ensures WindowsFrom(text, chunkSize, overlap, floor, 0) == Complete([Span(0, chunkSize)])
    ensures ChunksOf(text, WindowsFrom(text, chunkSize, overlap, floor, 0).spans) == [text]
  {
    var cutOf := Cuts(text, chunkSize, floor);
    assert cutOf(0) == chunkSize;
    SlideUnfold(|text|, cutOf, overlap, 0, chunkSize - overlap);
    assert Slide(|text|, cutOf, overlap, chunkSize - overlap) == Complete([]);
    assert [Span(0, chunkSize)] + [] == [Span(0, chunkSize)];
    assert Chunk(text, Span(0, chunkSize)) == text[0..|text|] == text;
  }

  /**
   * A text longer than `chunkSize - overlap` but no longer than `chunkSize`
   * gives two chunks: the whole text, then its last characters from offset
   * `chunkSize - overlap`, which the first chunk already holds.
   */
  lemma TwoChunks(text: string, chunkSize: int, overlap: int, floor: int)
    requires 0 <= overlap < chunkSize
    requires chunkSize - overlap < |text| <= chunkSize && |text| <= 2 * (chunkSize - overlap)
    ensures WindowsFrom(text, chunkSize, overlap, floor, 0)
      == Complete([Span(0, chunkSize), Span(chunkSize - overlap, 2 * chunkSize - overlap)])
    ensures ChunksOf(text, WindowsFrom(text, chunkSize, overlap, floor, 0).spans)
      == [text, text[chunkSize - overlap..]]
  {
    var cutOf := Cuts(text, chunkSize, floor);
    var second := chunkSize - overlap;
    assert cutOf(0) == chunkSize;
    assert cutOf(second) == second + chunkSize;
    SlideUnfold(|text|, cutOf, overlap, second, 2 * second);
    SlideUnfold(|text|, cutOf, overlap, 0, second);
    assert Slide(|text|, cutOf, overlap, 2 * second) == Complete([]);
    assert text[0..|text|] == text;
  }

  // ---------------------------------------------------------------------------
  // The Python loop, step by step.

  /** Python's normalisation of a slice bound `i` for a sequence of length `n`. */
  function PyBound(n: nat, i: int): (b: nat)
    ensures b <= n
    ensures 0 <= i <= n ==> b == i
  {
    if i < 0 then (if i + n < 0 then 0 else i + n)
    else if i > n then n
    else i
  }

  /** `s[a:b]` in Python, negative bounds counting from the end. */
  function PySlice(s: string, a: int, b: int): string {
    var lo := PyBound(|s|, a);
    var hi := PyBound(|s|, b);
    if lo <= hi then s[lo..hi] else ""
  }

  /** Where the `while` body cuts the window from `start`: after the break, or at the window's end. */
  function PyCut(text: string, chunkSize: int, start: int): int {
    var end := start + chunkSize;
    var b := if end < |text| then Break(PySlice(text, start, end), 0) else None;
    if b.Some? then start + b.value + 1 else end
  }

  /** One iteration of the `while` body: the chunk appended and the next `start`. */
  function PyStep(text: string, chunkSize: int, overlap: int, start: int): (string, int) {
    var cut := PyCut(text, chunkSize, start);
    (PySlice(text, start, cut), cut - overlap)
  }

  /**
   * A `while start < n` loop whose body appends `step(start).0` and moves to
   * `step(start).1`, run for at most `fuel` iterations; None when it has not
   * ended by then.
   */
  function Loop(n: nat, step: int -> (string, int), start: int, fuel: nat): Option<seq<string>>
    decreases fuel
  {
    if start >= n then Some([])
    else if fuel == 0 then None
    else
      match Loop(n, step, step(start).1, fuel - 1)
      case Some(rest) => Some([step(start).0] + rest)
      case None => None
  }

  /** `split_text` run for at most `fuel` iterations. */
  function PySplit(text: string, chunkSize: int, overlap: int, start: int, fuel: nat): Option<seq<string>> {
    Loop(|text|, (s: int) => PyStep(text, chunkSize, overlap, s), start, fuel)
  }

  // ---------------------------------------------------------------------------
  // Relating the two models.

  /** On non-negative bounds Python slicing is plain slicing, clamped at the end. */
  lemma PySliceInRange(s: string, a: int, b: int)
    requires 0 <= a <= b && a <= |s|
    ensures PySlice(s, a, b) == s[a..if b < |s| then b else |s|]
  {
  }

  /** From a non-negative start inside the text, the Python body cuts where the break rule does. */
  lemma PyCutIsCutEnd(text: string, chunkSize: int, start: nat)
    requires 0 < chunkSize && start < |text|
    ensures PyCut(text, chunkSize, start) == CutEnd(text, chunkSize, 0, start)
  {
    var end := start + chunkSize;
    if end < |text| {
      PySliceInRange(text, start, end);
      assert PySlice(text, start, end) == text[start..end];
    }
  }

  /** From a non-negative start, one Python iteration emits the span's chunk and moves to its next start. */
  lemma PyStepMatchesSpan(text: string, chunkSize: int, overlap: int, start: nat)
    requires 0 < chunkSize && start < |text|
    ensures var cut := Cuts(text, chunkSize, 0)(start);
      PyStep(text, chunkSize, overlap, start) == (Chunk(text, Span(start, cut)), cut - overlap)
  {
    var cut := PyCut(text, chunkSize, start);
    PyCutIsCutEnd(text, chunkSize, start);
    assert start < cut;
    PySliceInRange(text, start, cut);
  }

  /** A step function that, from every offset inside the text, emits the chunk of the slide's window. */
  ghost predicate StepsMatch(text: string, step: int -> (string, int), cutOf: nat -> int, overlap: int) {
    forall s: nat :: s < |text| ==> step(s) == (Chunk(text, Span(s, cutOf(s))), cutOf(s) - overlap)
  }

  lemma PyStepsMatch(text: string, chunkSize: int, overlap: int)
    requires 0 < chunkSize
    ensures StepsMatch(text, (s: int) => PyStep(text, chunkSize, overlap, s), Cuts(text, chunkSize, 0), overlap)
  {
    forall s: nat | s < |text|
      ensures PyStep(text, chunkSize, overlap, s)
        == (Chunk(text, Span(s, Cuts(text, chunkSize, 0)(s))), Cuts(text, chunkSize, 0)(s) - overlap)
    {
      PyStepMatchesSpan(text, chunkSize, overlap, s);
    }
  }

  lemma ChunksOfCons(text: string, s: Span, rest: seq<Span>)
    ensures ChunksOf(text, [s] + rest) == [Chunk(text, s)] + ChunksOf(text, rest)
  {
    var l := ChunksOf(text, [s] + rest);
    var r := [Chunk(text, s)] + ChunksOf(text, rest);
    assert |l| == |r|;
    forall i | 0 <= i < |l| ensures l[i] == r[i] {
      if i > 0 {
        assert ([s] + rest)[i] == rest[i - 1];
      }
    }
  }

  /** A loop that follows a slide's windows ends with the slide's chunks when the slide completes in time. */
  lemma {:induction false} LoopFollowsSlide(text: string, step: int -> (string, int), cutOf: nat -> int, overlap: int, start: nat, fuel: nat)
    requires StepsMatch(text, step, cutOf, overlap)
    requires Slide(|text|, cutOf, overlap, start).Complete?
    requires fuel >= |Slide(|text|, cutOf, overlap, start).spans|
    ensures Loop(|text|, step, start, fuel) == Some(ChunksOf(text, Slide(|text|, cutOf, overlap, start).spans))
    decreases |text| - start
  {
    if start < |text| {
      var cut := cutOf(start);
      SlideCompleteMoves(|text|, cutOf, overlap, start);
      SlideUnfold(|text|, cutOf, overlap, start, cut - overlap);
      var rest := Slide(|text|, cutOf, overlap, cut - overlap).spans;
      LoopFollowsSlide(text, step, cutOf, overlap, cut - overlap, fuel - 1);
      assert step(start) == (Chunk(text, Span(start, cut)), cut - overlap);
      ChunksOfCons(text, Span(start, cut), rest);
    }
  }

  /** When the span model completes, the Python loop ends with exactly its chunks. */
  lemma SourceAgrees(text: string, chunkSize: int, overlap: int, start: nat, fuel: nat)
    requires 0 < chunkSize
    requires WindowsFrom(text, chunkSize, overlap, 0, start).Complete?
    requires fuel >= |WindowsFrom(text, chunkSize, overlap, 0, start).spans|
    ensures PySplit(text, chunkSize, overlap, start, fuel) ==
      Some(ChunksOf(text, WindowsFrom(text, chunkSize, overlap, 0, start).spans))
  {
    PyStepsMatch(text, chunkSize, overlap);
    LoopFollowsSlide(text, (s: int) => PyStep(text, chunkSize, overlap, s), Cuts(text, chunkSize, 0), overlap, start, fuel);
  }

  /** A step that leaves `start` where it was repeats forever. */
  lemma {:induction false} StuckDiverges(n: nat, step: int -> (string, int), start: int, fuel: nat)
    requires start < n && step(start).1 == start
    ensures Loop(n, step, start, fuel) == None
    decreases fuel
  {
    if fuel > 0 {
      StuckDiverges(n, step, start, fuel - 1);
    }
  }

  /** A loop that follows a slide stalled with the next start equal to the current one never ends. */
  lemma {:induction false} LoopFollowsStall(text: string, step: int -> (string, int), cutOf: nat -> int, overlap: int, start: nat, fuel: nat)
    requires StepsMatch(text, step, cutOf, overlap)
    requires Slide(|text|, cutOf, overlap, start).Stalled?
    requires Slide(|text|, cutOf, overlap, start).next == Slide(|text|, cutOf, overlap, start).at
    ensures Loop(|text|, step, start, fuel) == None
    decreases |text| - start
  {
    var cut := cutOf(start);
    if cut - overlap <= start {
      SlideStalls(|text|, cutOf, overlap, start);
      StuckDiverges(|text|, step, start, fuel);
    } else if fuel > 0 {
      SlideUnfold(|text|, cutOf, overlap, start, cut - overlap);
      LoopFollowsStall(text, step, cutOf, overlap, cut - overlap, fuel - 1);
    }
  }

  /** When the span model stalls with the next start equal to the current one, `split_text` never returns. */
  lemma StalledDiverges(text: string, chunkSize: int, overlap: int, start: nat, fuel: nat)
    requires 0 < chunkSize
    requires WindowsFrom(text, chunkSize, overlap, 0, start).Stalled?
    requires WindowsFrom(text, chunkSize, overlap, 0, start).next == WindowsFrom(text, chunkSize, overlap, 0, start).at
    ensures PySplit(text, chunkSize, overlap, start, fuel) == None
  {
    PyStepsMatch(text, chunkSize, overlap);
    LoopFollowsStall(text, (s: int) => PyStep(text, chunkSize, overlap, s), Cuts(text, chunkSize, 0), overlap, start, fuel);
  }

  /** `prefix` followed by the chunks of a loop that ends; None when the loop does not end. */
  function Prefixed(prefix: seq<string>, rest: Option<seq<string>>): Option<seq<string>> {
    if rest.Some? then Some(prefix + rest.value) else None
  }

  /** One turn of a loop that has not ended: its step's chunk, then the rest of the loop. */
  lemma LoopUnfold(n: nat, step: int -> (string, int), start: int, fuel: nat)
    requires start < n && 0 < fuel
    ensures Loop(n, step, start, fuel) == Prefixed([step(start).0], Loop(n, step, step(start).1, fuel - 1))
  {
  }

  /** Emitting `a` then `b` before a loop's chunks is emitting `a + b` before them. */
  lemma PrefixedTwice(a: seq<string>, b: seq<string>, rest: Option<seq<string>>)
    ensures Prefixed(a, Prefixed(b, rest)) == Prefixed(a + b, rest)
  {
    if rest.Some? {
      assert a + (b + rest.value) == (a + b) + rest.value;
    }
  }

  /** A loop that follows a slide emits the chunk of the window at `start`, then moves to its next start. */
  lemma LoopFollowsWindow(text: string, step: int -> (string, int), cutOf: nat -> int, overlap: int, start: nat, fuel: nat)
    requires StepsMatch(text, step, cutOf, overlap)
    requires start < |text| && 0 < fuel
    ensures Loop(|text|, step, start, fuel)
      == Prefixed([Chunk(text, Span(start, cutOf(start)))], Loop(|text|, step, cutOf(start) - overlap, fuel - 1))
  {
    assert step(start) == (Chunk(text, Span(start, cutOf(start))), cutOf(start) - overlap);
    LoopUnfold(|text|, step, start, fuel);
  }

  /** At a window that does not move forward, the loop emits its chunk and moves back to its next start. */
  lemma LoopAtStall(text: string, step: int -> (string, int), cutOf: nat -> int, overlap: int, start: nat, fuel: nat)
    requires StepsMatch(text, step, cutOf, overlap)
    requires start < |text| && 0 < fuel && cutOf(start) - overlap <= start
    ensures var o := Slide(|text|, cutOf, overlap, start);
      Loop(|text|, step, start, fuel) == Prefixed(ChunksOf(text, o.spans), Loop(|text|, step, o.next, fuel - |o.spans|))
  {
    var cut := cutOf(start);
    LoopFollowsWindow(text, step, cutOf, overlap, start, fuel);
    SlideStalls(|text|, cutOf, overlap, start);
    assert ChunksOf(text, [Span(start, cut)]) == [Chunk(text, Span(start, cut))];
  }

  /** At a window that moves forward, the loop's chunks are its chunk and then those from the next start. */
  lemma LoopPastWindow(text: string, step: int -> (string, int), cutOf: nat -> int, overlap: int, start: nat, fuel: nat)
    requires StepsMatch(text, step, cutOf, overlap)
    requires start < |text| && 0 < fuel && start < cutOf(start) - overlap
    requires var rest := Slide(|text|, cutOf, overlap, cutOf(start) - overlap);
      && rest.Stalled? && fuel - 1 >= |rest.spans|
      && Loop(|text|, step, cutOf(start) - overlap, fuel - 1)
         == Prefixed(ChunksOf(text, rest.spans), Loop(|text|, step, rest.next, fuel - 1 - |rest.spans|))
    ensures var o := Slide(|text|, cutOf, overlap, start);
      Loop(|text|, step, start, fuel) == Prefixed(ChunksOf(text, o.spans), Loop(|text|, step, o.next, fuel - |o.spans|))
  {
    var cut := cutOf(start);
    var o := Slide(|text|, cutOf, overlap, start);
    var rest := Slide(|text|, cutOf, overlap, cut - overlap);
    LoopFollowsWindow(text, step, cutOf, overlap, start, fuel);
    SlideUnfold(|text|, cutOf, overlap, start, cut - overlap);
    assert o.spans == [Span(start, cut)] + rest.spans && o.next == rest.next;
    ChunksOfCons(text, Span(start, cut), rest.spans);
    PrefixedTwice([Chunk(text, Span(start, cut))], ChunksOf(text, rest.spans), Loop(|text|, step, o.next, fuel - |o.spans|));
  }

  /**
   * A loop that follows a slide which stalls emits the slide's chunks, the
   * stalled window's included, and then carries on from that window's next
   * start, wherever it lies.
   */
  lemma {:induction false} LoopAfterStall(text: string, step: int -> (string, int), cutOf: nat -> int, overlap: int, start: nat, fuel: nat)
    requires StepsMatch(text, step, cutOf, overlap)
    requires Slide(|text|, cutOf, overlap, start).Stalled?
    requires fuel >= |Slide(|text|, cutOf, overlap, start).spans|
    ensures var o := Slide(|text|, cutOf, overlap, start);
      Loop(|text|, step, start, fuel) == Prefixed(ChunksOf(text, o.spans), Loop(|text|, step, o.next, fuel - |o.spans|))
    decreases |text| - start
  {
    var o := Slide(|text|, cutOf, overlap, start);
    var cut := cutOf(start);
    assert start < |text|;
    SlideFirst(|text|, cutOf, overlap, start);
    if cut - overlap <= start {
      LoopAtStall(text, step, cutOf, overlap, start, fuel);
    } else {
      SlideUnfold(|text|, cutOf, overlap, start, cut - overlap);
      LoopAfterStall(text, step, cutOf, overlap, cut - overlap, fuel - 1);
      LoopPastWindow(text, step, cutOf, overlap, start, fuel);
    }
  }

  /**
   * When the span model stalls, `split_text` emits the span model's chunks
   * and then carries on from the stalled window's next start, which lies at
   * or before that window's own start and may be negative.
   */
  lemma SourceAfterStall(text: string, chunkSize: int, overlap: int, start: nat, fuel: nat)
    requires 0 < chunkSize
    requires WindowsFrom(text, chunkSize, overlap, 0, start).Stalled?
    requires fuel >= |WindowsFrom(text, chunkSize, overlap, 0, start).spans|
    ensures var o := WindowsFrom(text, chunkSize, overlap, 0, start);
      && o.next <= o.at
      && PySplit(text, chunkSize, overlap, start, fuel)
         == Prefixed(ChunksOf(text, o.spans), PySplit(text, chunkSize, overlap, o.next, fuel - |o.spans|))
  {
    SlideEnds(|text|, Cuts(text, chunkSize, 0), overlap, start);
    PyStepsMatch(text, chunkSize, overlap);
    LoopAfterStall(text, (s: int) => PyStep(text, chunkSize, overlap, s), Cuts(text, chunkSize, 0), overlap, start, fuel);
  }

  /** Python's `rfind` finds nothing in an empty window, so no break is found there. */
  lemma EmptyWindowNoBreak(floor: int)
    ensures Break("", floor).None?
  {
    BreakSpec("", floor);
    forall k | 0 <= k < |BreakMarkers| ensures !Qualifies("", floor, k) {
      LastIndexOfIsLast("", BreakMarkers[k]);
    }
  }

  /**
   * From a negative start whose window ends inside the text, the slice runs
   * backwards (from `|text| + start` to `start + chunkSize`), so the body
   * appends an empty chunk and moves on by `chunkSize - overlap`.
   */
  lemma NegativeStartEmpty(text: string, chunkSize: int, overlap: int, start: int)
    requires start < 0 <= start + chunkSize < |text| && chunkSize <= |text|
    ensures PyStep(text, chunkSize, overlap, start) == ("", start + chunkSize - overlap)
  {
    var end := start + chunkSize;
    assert PyBound(|text|, start) == start + |text|;
    assert PyBound(|text|, end) == end <= start + |text|;
    assert PySlice(text, start, end) == "";
    EmptyWindowNoBreak(0);
    assert PyCut(text, chunkSize, start) == end;
  }

  /**
   * A stalled span model whose next start is negative, with that window
   * ending inside a text no shorter than a window: `split_text` emits the span model's chunks, then
   * an empty chunk, then carries on from `next + chunkSize - overlap`; the
   * characters between the last span's cut and that start appear in no chunk
   * when it lies past the cut.
   */
  lemma SourceStepsBack(text: string, chunkSize: int, overlap: int, start: nat, fuel: nat)
    requires 0 < chunkSize
    requires WindowsFrom(text, chunkSize, overlap, 0, start).Stalled?
    requires var o := WindowsFrom(text, chunkSize, overlap, 0, start);
      o.next < 0 <= o.next + chunkSize < |text| && chunkSize <= |text| && fuel > |o.spans|
    ensures var o := WindowsFrom(text, chunkSize, overlap, 0, start);
      PySplit(text, chunkSize, overlap, start, fuel)
      == Prefixed(ChunksOf(text, o.spans) + [""],
                  PySplit(text, chunkSize, overlap, o.next + chunkSize - overlap, fuel - |o.spans| - 1))
  {
    var o := WindowsFrom(text, chunkSize, overlap, 0, start);
    SourceAfterStall(text, chunkSize, overlap, start, fuel);
    NegativeStartEmpty(text, chunkSize, overlap, o.next);
    var step := (s: int) => PyStep(text, chunkSize, overlap, s);
    LoopUnfold(|text|, step, o.next, fuel - |o.spans|);
    PrefixedTwice(ChunksOf(text, o.spans), [""], Loop(|text|, step, o.next + chunkSize - overlap, fuel - |o.spans| - 1));
  }

  // ---------------------------------------------------------------------------
  // Texts with a single newline near the start.

  /** `n` characters, all `a` but for a newline at offset `p`. */
  function OneNewline(n: nat, p: nat): (t: string)
    ensures |t| == n
    ensures forall i :: 0 <= i < n ==> (t[i] == '\n' <==> i == p)
  {
    seq(n, i => if i == p then '\n' else 'a')
  }

  /** A marker whose first character is absent from `w` does not occur in `w`. */
  lemma AbsentMarker(w: string, sub: string)
    requires |sub| > 0
    requires forall i :: 0 <= i < |w| ==> w[i] != sub[0]
    ensures LastIndexOf(w, sub).None?
  {
    forall i | 0 <= i < |w| ensures !OccursAt(w, sub, i) {
      assert w[i + 0] != sub[0];
    }
    LastIndexOfIsLast(w, sub);
  }

  /**
   * In a window over the start of `OneNewline(n, p)` that holds the newline,
   * the newline is the only break marker, so the break lies at `p` exactly
   * when the floor allows it.
   */
  lemma NewlineWindow(n: nat, p: nat, len: nat, floor: int)
    requires p < len <= n
    ensures var w := OneNewline(n, p)[0..len];
      && LastIndexOf(w, "\n\n").None?
      && LastIndexOf(w, "\n") == Some(p)
      && (forall k :: 2 <= k < |BreakMarkers| ==> LastIndexOf(w, BreakMarkers[k]).None?)
      && Break(w, floor) == if floor <= p then Some(p) else None
  {
    var w := OneNewline(n, p)[0..len];
    assert forall i :: 0 <= i < len ==> w[i] == (if i == p then '\n' else 'a');
    forall i | 0 <= i ensures !OccursAt(w, "\n\n", i) {
      if i == p && i + 2 <= |w| {
        assert w[i + 1] != "\n\n"[1];
      } else if i + 2 <= |w| {
        assert w[i + 0] != "\n\n"[0];
      }
    }
    LastIndexOfIsLast(w, "\n\n");
    assert OccursAt(w, "\n", p);
    LastIndexOfIsLast(w, "\n");
    assert Contains(w, "\n");
    var r := LastIndexOf(w, "\n");
    assert OccursAt(w, "\n", r.value);
    assert w[r.value + 0] == "\n"[0];
    forall k | 2 <= k < |BreakMarkers| ensures LastIndexOf(w, BreakMarkers[k]).None? {
      AbsentMarker(w, BreakMarkers[k]);
    }
    if floor <= p {
      assert !Qualifies(w, floor, 0) && Qualifies(w, floor, 1);
      assert FirstMarkerFrom(w, floor, 0) == Some(1);
    } else {
      forall k | 0 <= k < |BreakMarkers| ensures !Qualifies(w, floor, k) {
      }
      BreakSpec(w, floor);
    }
  }

  // ---------------------------------------------------------------------------
  // A text on which `split_text` never returns.

  /** 513 characters whose only break marker is a newline at offset 49, one before the default overlap. */
  const LoopingText: string := OneNewline(513, 49)

  /**
   * With the configured sizes, the source's rule cuts the first window of
   * `LoopingText` at 50, which sends the next window back to 0: the loop is
   * stalled, and `split_text` never returns.
   */
  lemma SourceLoopsForever(fuel: nat)
    ensures SourceWindows(LoopingText, DefaultChunkSize, DefaultOverlap) == Stalled([Span(0, 50)], 0, 0)
    ensures PySplit(LoopingText, DefaultChunkSize, DefaultOverlap, 0, fuel) == None
  {
    NewlineWindow(513, 49, 512, 0);
    assert CutEnd(LoopingText, 512, 0, 0) == 50;
    assert Cuts(LoopingText, 512, 0)(0) == 50;
    SlideStalls(|LoopingText|, Cuts(LoopingText, 512, 0), 50, 0);
    StalledDiverges(LoopingText, DefaultChunkSize, DefaultOverlap, 0, fuel);
  }

  /**
   * The corrected rule skips the newline at 49 (it lies inside the overlap)
   * and falls back to full windows: two chunks, the second starting 50
   * characters before the first one's end.
   */
  lemma CorrectedSplitsLoopingText()
    ensures Windows(LoopingText, DefaultChunkSize, DefaultOverlap) == Complete([Span(0, 512), Span(462, 974)])
  {
    NewlineWindow(513, 49, 512, 50);
    var cutOf := Cuts(LoopingText, 512, 50);
    assert cutOf(0) == CutEnd(LoopingText, 512, 50, 0) == 512;
    assert cutOf(462) == CutEnd(LoopingText, 512, 50, 462) == 974;
    SlideUnfold(|LoopingText|, cutOf, 50, 462, 924);
    SlideUnfold(|LoopingText|, cutOf, 50, 0, 462);
    assert Slide(|LoopingText|, cutOf, 50, 924) == Complete([]);
  }

  // ---------------------------------------------------------------------------
  // A text on which `split_text` steps back before the start.

  /** 600 characters whose only break marker is a newline at offset 10. */
  const BackText: string := OneNewline(600, 10)

  /**
   * With the configured sizes, the source's rule cuts the first window of
   * `BackText` at 11 and sends the next start to -39. The window from -39
   * slices backwards and is empty, and the one after it starts at 423:
   * `split_text` returns an empty chunk, and characters 11 to 422 are in no
   * chunk.
   */
  lemma SourceDropsText(fuel: nat)
    requires fuel >= 3
    ensures SourceWindows(BackText, DefaultChunkSize, DefaultOverlap) == Stalled([Span(0, 11)], 0, -39)
    ensures PySplit(BackText, DefaultChunkSize, DefaultOverlap, 0, fuel) == Some([BackText[0..11], "", BackText[423..600]])
  {
    var cutOf := Cuts(BackText, 512, 0);
    NewlineWindow(600, 10, 512, 0);
    assert CutEnd(BackText, 512, 0, 0) == 11;
    assert cutOf(0) == 11;
    SlideStalls(|BackText|, cutOf, 50, 0);
    SourceStepsBack(BackText, 512, 50, 0, fuel);
    ChunksOfCons(BackText, Span(0, 11), []);
    assert [Span(0, 11)] + [] == [Span(0, 11)];
    assert ChunksOf(BackText, [Span(0, 11)]) == [BackText[0..11]];
    PyStepMatchesSpan(BackText, 512, 50, 423);
    assert Cuts(BackText, 512, 0)(423) == 935;
    assert PyStep(BackText, 512, 50, 423) == (BackText[423..600], 885);
    var step := (s: int) => PyStep(BackText, 512, 50, s);
    LoopUnfold(600, step, 423, fuel - 2);
    assert Loop(600, step, 885, fuel - 3) == Some([]);
    assert [BackText[423..600]] + [] == [BackText[423..600]];
    assert [BackText[0..11]] + [""] + [BackText[423..600]] == [BackText[0..11], "", BackText[423..600]];
  }

  /**
   * The corrected rule skips the newline at 10 (it lies inside the overlap)
   * and falls back to full windows, which together hold every character.
   */
  lemma CorrectedSplitsBackText()
    ensures Windows(BackText, DefaultChunkSize, DefaultOverlap) == Complete([Span(0, 512), Span(462, 974)])
    ensures ChunksOf(BackText, Windows(BackText, DefaultChunkSize, DefaultOverlap).spans) == [BackText[0..512], BackText[462..600]]
  {
    NewlineWindow(600, 10, 512, 50);
    var cutOf := Cuts(BackText, 512, 50);
    assert cutOf(0) == CutEnd(BackText, 512, 50, 0) == 512;
    assert cutOf(462) == CutEnd(BackText, 512, 50, 462) == 974;
    SlideUnfold(|BackText|, cutOf, 50, 462, 924);
    SlideUnfold(|BackText|, cutOf, 50, 0, 462);
    assert Slide(|BackText|, cutOf, 50, 924) == Complete([]);
  }
}
