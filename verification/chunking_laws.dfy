/** Nothing of a text is lost between the windows, and the cap of 200 chunks leaves every text
    up to an exact length whole. */
module ChunkingLaws {
  import opened Basics
  import opened JsText
  import opened Chunking

  /** Parameters for which a window always moves forward and never leaves a gap. */
  predicate Sound(target: int, overlap: int) {
    target >= 1 && overlap >= 0
  }

  /** Text between two places, trimmed. */
  predicate Honest(text: string, w: Window) {
    0 <= w.start < w.end <= |text| && w.content == Trim(text[w.start..w.end])
  }

  /** What the list of windows needs to know about a cut. A window that stops short of the end
      of the text had a whole target before it, and is cut past the first six tenths of it. */
  predicate CutFits(w: Window, start: nat, length: nat, target: int) {
    && w.start == start < w.end <= length
    && w.end - w.start <= target
    && (w.end < length ==> start + target < length && start + Cut(target) < w.end)
  }

  ghost predicate CutsFit(cut: Cutter, length: nat, target: int) {
    && (forall s: nat :: s < length ==> CutFits(cut(s), s, length, target))
    && (forall s: nat, t: nat :: s <= t < length ==> cut(s).end <= cut(t).end)
  }

  lemma EndsGrow(text: string, start: nat, next: nat, target: int)
    requires start <= next < |text| && target >= 1
    ensures WindowEnd(text, start, target) <= WindowEnd(text, next, target)
  {
    var e, f := Min(start + target, |text|), Min(next + target, |text|);
    if f < |text| {
      var b, c := LastIndexOf(text, e), LastIndexOf(text, f);
      assert b <= c;
      if c > next + Cut(target) && e > c {
        assert b == c;
      }
    }
  }

  lemma CutterFits(text: string, target: int)
    requires target >= 1
    ensures CutsFit(CutterOf(text, target), |text|, target)
    ensures forall s: nat :: s < |text| ==> Honest(text, CutterOf(text, target)(s))
  {
    forall s: nat, t: nat | s <= t < |text|
      ensures CutterOf(text, target)(s).end <= CutterOf(text, target)(t).end
    {
      EndsGrow(text, s, t, target);
    }
  }

  // ---------- no gap, nothing twice ----------

  /** Each window after the first starts later than the one before it, inside it or at its end,
      and ends no earlier; none is longer than the target. */
  ghost predicate Chained(ws: seq<Window>, length: nat, target: int) {
    && (forall i :: 0 <= i < |ws| ==> 0 <= ws[i].start < ws[i].end <= length && ws[i].end - ws[i].start <= target)
    && (forall i :: 0 < i < |ws| ==> ws[i - 1].start < ws[i].start <= ws[i - 1].end <= ws[i].end)
  }

  lemma ChainedCons(w: Window, rest: seq<Window>, length: nat, target: int)
    requires 0 <= w.start < w.end <= length && w.end - w.start <= target && Chained(rest, length, target)
    requires rest != [] ==> w.start < rest[0].start <= w.end <= rest[0].end
    ensures Chained([w] + rest, length, target)
  {
    var ws := [w] + rest;
    forall i | 0 < i < |ws| ensures ws[i - 1].start < ws[i].start <= ws[i - 1].end <= ws[i].end {
      if i > 1 { assert ws[i - 1] == rest[i - 2]; }
      assert ws[i] == rest[i - 1];
    }
  }

  lemma {:induction false} WindowsChained(cut: Cutter, length: nat, start: nat, taken: nat, target: int, overlap: int)
    requires CutsFit(cut, length, target) && overlap >= 0
    ensures Chained(Windows(cut, length, start, taken, overlap), length, target)
    ensures start < length && taken < MAX_CHUNKS ==>
              Windows(cut, length, start, taken, overlap) != [] &&
                  Windows(cut, length, start, taken, overlap)[0] == cut(start)
    decreases length - start
  {
    if start < length && taken < MAX_CHUNKS {
      var w := cut(start);
      assert CutFits(w, start, length, target);
      FirstWindow(cut, length, start, taken, overlap);
      var rest := WindowsAfter(cut, length, w, taken, overlap);
      if w.end < length {
        WindowsChained(cut, length, NextStart(w, overlap), taken + Yield(w), target, overlap);
      }
      assert rest != [] ==> rest[0] == cut(NextStart(w, overlap));
      ChainedCons(w, rest, length, target);
    }
  }

  /** Where the last window ends; the text before that is covered. */
  function Covered(ws: seq<Window>): int {
    if ws == [] then 0 else ws[|ws| - 1].end
  }

  /** The texts of the windows, each without the part that was had before it. */
  function Stitched(text: string, ws: seq<Window>, had: int): string
    requires forall i :: 0 <= i < |ws| ==> 0 <= ws[i].start < ws[i].end <= |text|
    requires forall i :: 0 < i < |ws| ==> ws[i].start <= ws[i - 1].end <= ws[i].end
    requires ws != [] ==> ws[0].start <= had <= ws[0].end
    decreases |ws|
  {
    if ws == [] then ""
    else text[ws[0].start..ws[0].end][had - ws[0].start..] + Stitched(text, ws[1..], ws[0].end)
  }

  lemma Joined(text: string, a: nat, b: nat, c: nat)
    requires a <= b <= c <= |text|
    ensures text[a..b] + text[b..c] == text[a..c]
  {
  }

  lemma {:induction false} StitchedIsPrefix(text: string, ws: seq<Window>, target: int, had: int)
    requires ws != [] && Chained(ws, |text|, target) && ws[0].start <= had <= ws[0].end
    ensures had <= Covered(ws) <= |text|
    ensures Stitched(text, ws, had) == text[had..Covered(ws)]
    decreases |ws|
  {
    StitchedFirst(text, ws, had);
    if |ws| > 1 {
      StitchedIsPrefix(text, ws[1..], target, ws[0].end);
      Joined(text, had, ws[0].end, Covered(ws));
    }
  }

  lemma StitchedFirst(text: string, ws: seq<Window>, had: int)
    requires ws != [] && ws[0].start <= had <= ws[0].end
    requires forall i :: 0 <= i < |ws| ==> 0 <= ws[i].start < ws[i].end <= |text|
    requires forall i :: 0 < i < |ws| ==> ws[i].start <= ws[i - 1].end <= ws[i].end
    ensures |ws| > 1 ==> Covered(ws[1..]) == Covered(ws)
    ensures |ws| > 1 ==> Stitched(text, ws, had) == text[had..ws[0].end] + Stitched(text, ws[1..], ws[0].end)
    ensures |ws| == 1 ==> Stitched(text, ws, had) == text[had..ws[0].end]
  {
    SliceOfSlice(text, ws[0].start, ws[0].end, had - ws[0].start, ws[0].end - ws[0].start);
    if |ws| == 1 { assert Stitched(text, ws[1..], ws[0].end) == ""; }
  }

  /** The windows chain without a gap, and dropping their overlaps gives back the covered text. */
  lemma WindowsRebuildText(text: string, target: int, overlap: int)
    requires Sound(target, overlap) && text != ""
    ensures WindowsOf(text, target, overlap) != [] && WindowsOf(text, target, overlap)[0].start == 0
    ensures Chained(WindowsOf(text, target, overlap), |text|, target)
    ensures 0 < Covered(WindowsOf(text, target, overlap)) <= |text|
    ensures Stitched(text, WindowsOf(text, target, overlap), 0) == text[..Covered(WindowsOf(text, target, overlap))]
  {
    var cut, ws := CutterOf(text, target), WindowsOf(text, target, overlap);
    CutterFits(text, target);
    assert CutFits(cut(0), 0, |text|, target);
    WindowsChained(cut, |text|, 0, 0, target, overlap);
    StitchedIsPrefix(text, ws, target, 0);
  }

  // ---------- every visible character reaches a chunk ----------

  lemma {:induction false} WindowsAreCut(cut: Cutter, length: nat, start: nat, taken: nat, target: int, overlap: int,
      k: nat)
    requires CutsFit(cut, length, target) && k < |Windows(cut, length, start, taken, overlap)|
    ensures 0 <= Windows(cut, length, start, taken, overlap)[k].start < length
    ensures Windows(cut, length, start, taken, overlap)[k] == cut(Windows(cut, length, start, taken, overlap)[k].start)
    decreases k
  {
    var w := cut(start);
    assert CutFits(w, start, length, target);
    FirstWindow(cut, length, start, taken, overlap);
    if k > 0 {
      WindowsAreCut(cut, length, NextStart(w, overlap), taken + Yield(w), target, overlap, k - 1);
    }
  }

  lemma WindowsHonest(text: string, target: int, overlap: int, k: nat)
    requires Sound(target, overlap) && k < |WindowsOf(text, target, overlap)|
    ensures Honest(text, WindowsOf(text, target, overlap)[k])
  {
    CutterFits(text, target);
    WindowsAreCut(CutterOf(text, target), |text|, 0, 0, target, overlap, k);
  }

  lemma {:induction false} WindowOver(ws: seq<Window>, length: nat, target: int, i: nat) returns (k: nat)
    requires Chained(ws, length, target) && ws != [] && ws[0].start <= i < Covered(ws)
    ensures k < |ws| && ws[k].start <= i < ws[k].end
    decreases |ws|
  {
    if i < ws[0].end {
      k := 0;
    } else {
      assert ws[1..][|ws| - 2] == ws[|ws| - 1];
      k := WindowOver(ws[1..], length, target, i);
      k := k + 1;
    }
  }

  lemma {:induction false} ChunkOfWindow(ws: seq<Window>, ordinal: nat, k: nat) returns (n: nat)
    requires k < |ws| && ws[k].content != ""
    ensures n < |Numbered(ws, ordinal)| && Numbered(ws, ordinal)[n].content == ws[k].content
    decreases |ws|
  {
    if k == 0 {
      n := 0;
    } else if ws[0].content == "" {
      n := ChunkOfWindow(ws[1..], ordinal, k - 1);
    } else {
      n := ChunkOfWindow(ws[1..], ordinal + 1, k - 1);
      n := n + 1;
    }
  }

  lemma SliceOfSlice(text: string, start: nat, end: nat, a: nat, b: nat)
    requires start <= end <= |text| && a <= b <= end - start
    ensures text[start..end][a..b] == text[start + a..start + b]
  {
    var s := text[start..end];
    forall i | 0 <= i < b - a ensures s[a..b][i] == text[start + a..start + b][i] {
      assert s[a..b][i] == s[a + i];
    }
  }

  lemma ContentSpan(text: string, w: Window, i: nat) returns (from: nat, to: nat)
    requires Honest(text, w) && w.start <= i < w.end && !IsSpace(text[i])
    ensures from <= i < to <= |text| && w.content == text[from..to]
  {
    var s := text[w.start..w.end];
    var a, b := TrimCut(s);
    assert forall j :: 0 <= j < a ==> s[..a][j] == s[j];
    assert forall j :: b <= j < |s| ==> s[b..][j - b] == s[j];
    from, to := w.start + a, w.start + b;
    SliceOfSlice(text, w.start, w.end, a, b);
  }

  /** Every visible character of the covered text stands in some chunk, at its place. */
  lemma CharacterKept(text: string, target: int, overlap: int, i: nat) returns (n: nat, a: nat)
    requires Sound(target, overlap)
    requires i < Covered(WindowsOf(text, target, overlap)) && i < |text| && !IsSpace(text[i])
    ensures n < |ChunksOf(text, target, overlap)|
    ensures a <= i < a + |ChunksOf(text, target, overlap)[n].content| <= |text|
    ensures ChunksOf(text, target, overlap)[n].content == text[a..a + |ChunksOf(text, target, overlap)[n].content|]
  {
    var ws := WindowsOf(text, target, overlap);
    WindowsRebuildText(text, target, overlap);
    var k := WindowOver(ws, |text|, target, i);
    WindowsHonest(text, target, overlap, k);
    var from, to := ContentSpan(text, ws[k], i);
    n := ChunkOfWindow(ws, 0, k);
    a := from;
  }

  // ---------- the chunks themselves ----------

  predicate WellShaped(chunk: Chunk, ordinal: nat, target: int) {
    && chunk.ordinal == ordinal && 1 <= |chunk.content| <= target
    && 4 * chunk.tokenEstimate - 4 < |chunk.content| <= 4 * chunk.tokenEstimate
  }

  lemma {:induction false} ChunkShape(ws: seq<Window>, target: int, ordinal: nat)
    requires forall i :: 0 <= i < |ws| ==> |ws[i].content| <= target
    ensures forall n :: 0 <= n < |Numbered(ws, ordinal)| ==>
                          WellShaped(Numbered(ws, ordinal)[n], ordinal + n, target)
    decreases |ws|
  {
    if ws != [] {
      var from := if ws[0].content == "" then ordinal else ordinal + 1;
      var more := Numbered(ws[1..], from);
      ChunkShape(ws[1..], target, from);
      forall n | 0 <= n < |Numbered(ws, ordinal)|
        ensures WellShaped(Numbered(ws, ordinal)[n], ordinal + n, target)
      {
        if ws[0].content == "" {
          assert WellShaped(more[n], from + n, target);
        } else if n > 0 {
          assert WellShaped(more[n - 1], from + (n - 1), target);
        }
      }
    }
  }

  lemma {:induction false} ChunkCount(cut: Cutter, length: nat, start: nat, taken: nat, target: int, overlap: int)
    requires CutsFit(cut, length, target) && taken <= MAX_CHUNKS
    ensures taken + |Numbered(Windows(cut, length, start, taken, overlap), taken)| <= MAX_CHUNKS
    decreases length - start
  {
    if start < length && taken < MAX_CHUNKS {
      var w := cut(start);
      assert CutFits(w, start, length, target);
      FirstWindow(cut, length, start, taken, overlap);
      NumberedCons(w, WindowsAfter(cut, length, w, taken, overlap), taken);
      if w.end < length {
        ChunkCount(cut, length, NextStart(w, overlap), taken + Yield(w), target, overlap);
      }
    }
  }

  /** The chunks of any text: numbered from 0, each of 1 to `target` characters, at most 200; a token is
      estimated for every four characters begun. */
  lemma ChunksBounded(text: string, target: int, overlap: int)
    requires Sound(target, overlap)
    ensures |ChunksOf(text, target, overlap)| <= 200
    ensures forall n :: 0 <= n < |ChunksOf(text, target, overlap)| ==>
                          WellShaped(ChunksOf(text, target, overlap)[n], n, target)
  {
    var ws := WindowsOf(text, target, overlap);
    CutterFits(text, target);
    ChunkCount(CutterOf(text, target), |text|, 0, 0, target, overlap);
    forall i | 0 <= i < |ws| ensures |ws[i].content| <= target {
      WindowsHonest(text, target, overlap, i);
      var a, b := TrimCut(text[ws[i].start..ws[i].end]);
      WindowsRebuildText(text, target, overlap);
    }
    ChunkShape(ws, target, 0);
  }

  // ---------- where a text is cut ----------

  predicate NoLineFeed(text: string, after: int, to: int) {
    forall i :: after < i <= to && 0 <= i < |text| ==> text[i] != '\n'
  }

  /** A window ends with the text, or else at the last line feed up to a target from its start, if that
      lies past six tenths of the target, or else at the full target. */
  predicate CutWell(text: string, w: Window, target: int) {
    var soonest, latest := w.start + target * 6 / 10, w.start + target;
    if latest >= |text| then w.end == |text|
    else
      || (w.end == latest && NoLineFeed(text, soonest, latest))
      || (soonest < w.end <= latest && w.end >= 0 && text[w.end] == '\n' && NoLineFeed(text, w.end, latest))
  }

  lemma WindowCutWell(text: string, start: nat, target: int)
    requires start < |text| && target >= 1
    ensures CutWell(text, CutterOf(text, target)(start), target)
  {
    assert target * 3 / 5 == target * 6 / 10;
  }

  lemma {:induction false} NextWindowStarts(
      cut: Cutter, length: nat, start: nat, taken: nat, target: int, overlap: int, k: nat)
    requires CutsFit(cut, length, target) && k + 1 < |Windows(cut, length, start, taken, overlap)|
    ensures var ws := Windows(cut, length, start, taken, overlap); ws[k + 1].start == NextStart(ws[k], overlap)
    decreases k
  {
    var w := cut(start);
    assert CutFits(w, start, length, target);
    FirstWindow(cut, length, start, taken, overlap);
    var next := NextStart(w, overlap);
    if k > 0 {
      NextWindowStarts(cut, length, next, taken + Yield(w), target, overlap, k - 1);
    } else {
      assert CutFits(cut(next), next, length, target);
      FirstWindow(cut, length, next, taken + Yield(w), overlap);
    }
  }

  /** The windows reach the end, or with the chunks taken before they make the last one allowed. */
  ghost predicate Complete(ws: seq<Window>, length: nat, taken: nat) {
    taken + |Numbered(ws, taken)| == MAX_CHUNKS || (ws != [] && Covered(ws) == length)
  }

  lemma CompleteCons(w: Window, rest: seq<Window>, length: nat, taken: nat)
    requires if rest == [] && w.end == length then true else Complete(rest, length, taken + Yield(w))
    ensures Complete([w] + rest, length, taken)
  {
    NumberedCons(w, rest, taken);
    assert rest != [] ==> ([w] + rest)[|rest|] == rest[|rest| - 1];
  }

  lemma {:induction false} StopsWhenFull(cut: Cutter, length: nat, start: nat, taken: nat, target: int, overlap: int)
    requires CutsFit(cut, length, target) && overlap >= 0 && start < length && taken <= MAX_CHUNKS
    ensures Complete(Windows(cut, length, start, taken, overlap), length, taken)
    decreases length - start
  {
    if taken < MAX_CHUNKS {
      var w := cut(start);
      assert CutFits(w, start, length, target);
      FirstWindow(cut, length, start, taken, overlap);
      if w.end < length {
        StopsWhenFull(cut, length, NextStart(w, overlap), taken + Yield(w), target, overlap);
      }
      CompleteCons(w, WindowsAfter(cut, length, w, taken, overlap), length, taken);
    }
  }

  /** Every window is cut where it should be, and the next starts an overlap before its end, but never
      where it did itself. */
  lemma CutsAreWell(text: string, target: int, overlap: int, k: nat)
    requires Sound(target, overlap) && k < |WindowsOf(text, target, overlap)|
    ensures var ws := WindowsOf(text, target, overlap);
            && CutWell(text, ws[k], target)
            && (k + 1 < |ws| ==> ws[k + 1].start == Max(ws[k].start + 1, ws[k].end - overlap))
  {
    var cut, ws := CutterOf(text, target), WindowsOf(text, target, overlap);
    CutterFits(text, target);
    WindowsAreCut(cut, |text|, 0, 0, target, overlap, k);
    WindowCutWell(text, ws[k].start, target);
    if k + 1 < |ws| { NextWindowStarts(cut, |text|, 0, 0, target, overlap, k); }
  }

  /** There are windows until the text ends or the 200th chunk is made. */
  lemma CutsGoOn(text: string, target: int, overlap: int)
    requires Sound(target, overlap) && text != ""
    ensures Covered(WindowsOf(text, target, overlap)) == |text| || |ChunksOf(text, target, overlap)| == 200
  {
    CutterFits(text, target);
    StopsWhenFull(CutterOf(text, target), |text|, 0, 0, target, overlap);
  }

  /** Every chunk is the trimmed text of a window. */
  lemma {:induction false} ChunkHasWindow(ws: seq<Window>, ordinal: nat, n: nat) returns (k: nat)
    requires n < |Numbered(ws, ordinal)|
    ensures k < |ws| && ws[k].content == Numbered(ws, ordinal)[n].content != ""
    decreases |ws|
  {
    if ws[0].content != "" && n == 0 {
      k := 0;
    } else {
      var empty := ws[0].content == "";
      k := ChunkHasWindow(ws[1..], if empty then ordinal else ordinal + 1, if empty then n else n - 1);
      k := k + 1;
    }
  }

  // ---------- how long a text the cap still covers ----------

  /** The least distance between the starts of two windows. */
  function Stride(target: int, overlap: int): int {
    Max(1, Cut(target) + 1 - overlap)
  }

  /** How far the windows get, at least, when `left` more than one are allowed. */
  function Reach(left: nat, target: int, overlap: int): int {
    if left == 0 then target else Stride(target, overlap) + Reach(left - 1, target, overlap)
  }

  lemma {:induction false} ReachIs(left: nat, target: int, overlap: int)
    ensures Reach(left, target, overlap) == left * Stride(target, overlap) + target
  {
    if left > 0 { ReachIs(left - 1, target, overlap); }
  }

  lemma {:induction false} CoverageFrom(cut: Cutter, length: nat, start: nat, taken: nat, target: int, overlap: int)
    requires CutsFit(cut, length, target) && overlap >= 0 && start < length && taken < MAX_CHUNKS
    requires length <= start + Reach(MAX_CHUNKS - 1 - taken, target, overlap)
    ensures Covered(Windows(cut, length, start, taken, overlap)) == length
    decreases length - start
  {
    var w := cut(start);
    assert CutFits(w, start, length, target);
    FirstWindow(cut, length, start, taken, overlap);
    if w.end < length {
      var next, used := NextStart(w, overlap), taken + Yield(w);
      assert taken < MAX_CHUNKS - 1;
      assert next >= start + Stride(target, overlap);
      CoverageFrom(cut, length, next, used, target, overlap);
    }
  }

  /** Despite the cap, a text of at most 199 strides and one target is covered to its end. */
  lemma FullyCovered(text: string, target: int, overlap: int)
    requires Sound(target, overlap)
    requires |text| <= Reach(MAX_CHUNKS - 1, target, overlap)
    ensures Covered(WindowsOf(text, target, overlap)) == |text|
  {
    CutterFits(text, target);
    if text != "" { CoverageFrom(CutterOf(text, target), |text|, 0, 0, target, overlap); }
  }

  const DEFAULT_REACH := 199 * 541 + 1_200

  /** The limit at the default parameters. */
  lemma DefaultReach(text: string)
    requires |text| <= DEFAULT_REACH
    ensures Covered(WindowsOf(text, TARGET, OVERLAP)) == |text|
  {
    ReachIs(MAX_CHUNKS - 1, TARGET, OVERLAP);
    FullyCovered(text, TARGET, OVERLAP);
  }

  // ---------- the limit is exact ----------

  /** Lines that end 721 characters into each window, the shortest a window can be cut. */
  predicate ShortLined(text: string) {
    && |text| == DEFAULT_REACH + 1
    && forall i :: 0 <= i < |text| ==> text[i] == ShortLineUnit(i)
  }

  function ShortLineUnit(i: int): char {
    if 721 <= i <= 199 * 541 + 721 && (i - 721) % 541 == 0 then '\n' else 'a'
  }

  lemma ShortLineEnd(text: string, k: nat)
    requires ShortLined(text) && k < 200
    ensures WindowEnd(text, 541 * k, TARGET) == 541 * k + 721
  {
    var start := 541 * k;
    assert text[start + 721] == '\n';
    forall i | start + 721 < i <= start + 1_200 ensures text[i] != '\n' {
      assert 0 < i - 721 - 541 * k < 541;
      assert text[i] == ShortLineUnit(i);
    }
  }

  lemma SecondIsLetter(text: string, k: nat)
    requires ShortLined(text) && k < 200
    ensures !IsSpace(text[541 * k + 1])
  {
    assert text[541 * k + 1] == ShortLineUnit(541 * k + 1) == 'a';
  }

  lemma VisibleContent(text: string, w: Window, i: nat)
    requires Honest(text, w) && w.start <= i < w.end && !IsSpace(text[i])
    ensures w.content != ""
  {
    var from, to := ContentSpan(text, w, i);
  }

  /** The k-th window, cut as short as can be. */
  predicate ShortCut(cut: Cutter, k: nat) {
    var w := cut(541 * k);
    w.start == 541 * k && w.end == 541 * k + 721 && w.content != ""
  }

  lemma ShortLineCut(text: string, k: nat)
    requires ShortLined(text) && k < 200
    ensures ShortCut(CutterOf(text, TARGET), k)
  {
    CutterFits(text, TARGET);
    ShortLineEnd(text, k);
    SecondIsLetter(text, k);
    VisibleContent(text, CutterOf(text, TARGET)(541 * k), 541 * k + 1);
  }

  lemma {:induction false} ShortLinesStop(cut: Cutter, k: nat)
    requires k < 200 && forall j: nat :: j < 200 ==> ShortCut(cut, j)
    ensures Covered(Windows(cut, DEFAULT_REACH + 1, 541 * k, k, OVERLAP)) == 199 * 541 + 721
    decreases 200 - k
  {
    assert ShortCut(cut, k);
    var w := cut(541 * k);
    FirstWindow(cut, DEFAULT_REACH + 1, 541 * k, k, OVERLAP);
    assert NextStart(w, OVERLAP) == 541 * (k + 1) && Yield(w) == 1;
    if k < 199 {
      ShortLinesStop(cut, k + 1);
    } else {
      assert Windows(cut, DEFAULT_REACH + 1, 541 * 200, 200, OVERLAP) == [];
    }
  }

  /** One character more than the default limit can already leave the end of a text uncovered. */
  lemma DefaultReachIsExact() returns (text: string)
    ensures |text| == DEFAULT_REACH + 1
    ensures Covered(WindowsOf(text, TARGET, OVERLAP)) < |text|
  {
    text := seq(DEFAULT_REACH + 1, i => ShortLineUnit(i));
    forall k: nat | k < 200 ensures ShortCut(CutterOf(text, TARGET), k) {
      ShortLineCut(text, k);
    }
    ShortLinesStop(CutterOf(text, TARGET), 0);
  }
}
