/** The overlapping windows that knowledge documents are cut into before embedding. The text is
    the sanitised and trimmed content; the parameters are any integers. */
module Chunking {
  import opened Basics
  import opened JsText

  const MAX_CHUNKS := 200
  const TARGET := 1_200
  const OVERLAP := 180

  datatype Chunk = Chunk(content: string, ordinal: nat, tokenEstimate: nat)

  /** A stretch of the text and what is left of it after trimming. */
  datatype Window = Window(start: int, end: int, content: string)

  // ---------- cutting one window ----------

  /** `Math.floor(target * 0.6)` */
  function Cut(target: int): int { target * 3 / 5 }

  function Clamp(i: int, length: nat): (r: nat)
    ensures r <= length
  {
    if i < 0 then Max(length + i, 0) else Min(i, length)
  }

  /** `text.slice(start, end)`; a negative index counts from the end of the text. */
  function Slice(text: string, start: int, end: int): string {
    var a, b := Clamp(start, |text|), Clamp(end, |text|);
    if a <= b then text[a..b] else ""
  }

  /** The last index at or below `from` that holds a line feed, or -1. */
  function LastLineFeed(text: string, from: int): (r: int)
    requires from < |text|
    ensures -1 <= r <= Max(from, -1)
    ensures r >= 0 ==> text[r] == '\n'
    ensures forall i :: Max(r, -1) < i <= from ==> text[i] != '\n'
    decreases from + 1
  {
    if from < 0 then -1 else if text[from] == '\n' then from else LastLineFeed(text, from - 1)
  }

  /** `text.lastIndexOf('\n', from)`, where a negative `from` counts as 0. */
  function LastIndexOf(text: string, from: int): int
    requires text != ""
  {
    LastLineFeed(text, Min(Max(from, 0), |text| - 1))
  }

  function WindowEnd(text: string, start: int, target: int): int
    requires 0 <= start < |text|
  {
    var end := Min(start + target, |text|);
    if end < |text| && LastIndexOf(text, end) > start + Cut(target) then LastIndexOf(text, end) else end
  }

  /** Cuts the window that starts at a given place. */
  type Cutter = nat -> Window

  function CutterOf(text: string, target: int): Cutter {
    (start: nat) =>
      if start >= |text| then Window(start, start, "")
      else
        var end := WindowEnd(text, start, target);
        Window(start, end, Trim(Slice(text, start, end)))
  }

  // ---------- the list of windows and the list of chunks ----------

  function NextStart(w: Window, overlap: int): (r: int)
    ensures r > w.start
  {
    Max(w.start + 1, w.end - overlap)
  }

  /** How many chunks a window adds. */
  function Yield(w: Window): nat {
    if w.content == "" then 0 else 1
  }

  /** The windows from `start` on, when `taken` chunks exist already. */
  function Windows(cut: Cutter, length: nat, start: nat, taken: nat, overlap: int): (ws: seq<Window>)
    decreases length - start
  {
    if start >= length || taken >= MAX_CHUNKS then []
    else
      var w := cut(start);
      if w.end >= length then [w]
      else [w] + Windows(cut, length, Max(start + 1, w.end - overlap), taken + Yield(w), overlap)
  }

  /** The windows that follow w, the window at w.start. */
  function WindowsAfter(cut: Cutter, length: nat, w: Window, taken: nat, overlap: int): seq<Window>
    requires w.start >= 0
  {
    if w.end >= length then [] else Windows(cut, length, NextStart(w, overlap), taken + Yield(w), overlap)
  }

  lemma FirstWindow(cut: Cutter, length: nat, start: nat, taken: nat, overlap: int)
    requires start < length && taken < MAX_CHUNKS && cut(start).start == start
    ensures Windows(cut, length, start, taken, overlap)
         == [cut(start)] + WindowsAfter(cut, length, cut(start), taken, overlap)
  {
  }

  function ChunkOf(content: string, ordinal: nat): Chunk {
    Chunk(content, ordinal, (|content| + 3) / 4)
  }

  /** One chunk, numbered in order, for each window that has text. */
  function Numbered(ws: seq<Window>, ordinal: nat): seq<Chunk> {
    if ws == [] then []
    else if ws[0].content == "" then Numbered(ws[1..], ordinal)
    else [ChunkOf(ws[0].content, ordinal)] + Numbered(ws[1..], ordinal + 1)
  }

  /** All windows of a text. */
  function WindowsOf(text: string, target: int, overlap: int): seq<Window> {
    Windows(CutterOf(text, target), |text|, 0, 0, overlap)
  }

  function ChunksOf(text: string, target: int, overlap: int): seq<Chunk> {
    Numbered(WindowsOf(text, target, overlap), 0)
  }

  lemma NumberedCons(w: Window, rest: seq<Window>, ordinal: nat)
    ensures w.content == "" ==> Numbered([w] + rest, ordinal) == Numbered(rest, ordinal)
    ensures w.content != "" ==>
              Numbered([w] + rest, ordinal) == [ChunkOf(w.content, ordinal)] + Numbered(rest, ordinal + 1)
  {
    var ws := [w] + rest;
    assert ws[1..] == rest && ws[0] == w;
  }

  lemma Regroup(a: seq<Chunk>, c: Chunk, b: seq<Chunk>)
    ensures a + ([c] + b) == a + [c] + b
  {
  }

  /** Taking a window moves its chunk, if any, from the remaining list to the made one. */
  lemma OneWindow(w: Window, rest: seq<Window>, before: seq<Chunk>, after: seq<Chunk>)
    requires after == if w.content == "" then before else before + [ChunkOf(w.content, |before|)]
    ensures before + Numbered([w] + rest, |before|) == after + Numbered(rest, |after|)
  {
    NumberedCons(w, rest, |before|);
    if w.content != "" {
      assert |after| == |before| + 1;
      Regroup(before, ChunkOf(w.content, |before|), Numbered(rest, |after|));
    }
  }

  /** One round of the loop: the first of the windows that are left goes over to the made chunks. */
  lemma OneRound(
      cut: Cutter, length: nat, start: nat, next: nat, overlap: int,
      w: Window, before: seq<Chunk>, after: seq<Chunk>, all: seq<Chunk>)
    requires start < length && |before| < MAX_CHUNKS && cut(start) == w && w.start == start
    requires next == NextStart(w, overlap)
    requires after == if w.content == "" then before else before + [ChunkOf(w.content, |before|)]
    requires all == before + Numbered(Windows(cut, length, start, |before|, overlap), |before|)
    ensures w.end >= length ==> all == after
    ensures w.end < length ==> all == after + Numbered(Windows(cut, length, next, |after|, overlap), |after|)
  {
    var ws, rest := Windows(cut, length, start, |before|, overlap), WindowsAfter(cut, length, w, |before|, overlap);
    FirstWindow(cut, length, start, |before|, overlap);
    assert ws == [w] + rest;
    OneWindow(w, rest, before, after);
    assert all == after + Numbered(rest, |after|);
    NextWindows(cut, length, w, |before|, |after|, overlap);
    NothingLeft(after);
  }

  lemma NextWindows(cut: Cutter, length: nat, w: Window, taken: nat, now: nat, overlap: int)
    requires w.start >= 0 && now == taken + Yield(w)
    ensures WindowsAfter(cut, length, w, taken, overlap)
         == if w.end >= length then [] else Windows(cut, length, NextStart(w, overlap), now, overlap)
  {
  }

  lemma NothingLeft(made: seq<Chunk>)
    ensures made + Numbered([], |made|) == made
  {
  }

  /** A cutter for the given text and target, said so that it need not be looked into. */
  ghost predicate Cuts(cut: Cutter, text: string, target: int) {
    forall t, g :: t == text && g == target ==> cut == CutterOf(t, g)
  }

  method CutWindow(text: string, start: nat, target: int, ghost cut: Cutter) returns (end: int, value: string)
    requires start < |text| && Cuts(cut, text, target)
    ensures cut(start) == Window(start, end, value)
  {
    end := Min(start + target, |text|);
    if end < |text| {
      var boundary := LastIndexOf(text, end);
      if boundary > start + Cut(target) {
        end := boundary;
      }
    }
    assert end == WindowEnd(text, start, target);
    value := Trim(Slice(text, start, end));
    assert cut == CutterOf(text, target);
  }

  /** The loop of `chunk`, for the windows of any cutter that fits. */
  method CutAll(text: string, target: int, overlap: int, ghost cut: Cutter) returns (chunks: seq<Chunk>)
    requires Cuts(cut, text, target)
    ensures chunks == Numbered(Windows(cut, |text|, 0, 0, overlap), 0)
  {
    chunks := [];
    ghost var all := Numbered(Windows(cut, |text|, 0, 0, overlap), 0);
    var start: nat := 0;
    while start < |text| && |chunks| < MAX_CHUNKS
      invariant all == chunks + Numbered(Windows(cut, |text|, start, |chunks|, overlap), |chunks|)
      decreases |text| - start
    {
      var end, value := CutWindow(text, start, target, cut);
      ghost var before := chunks;
      if |value| > 0 {
        chunks := chunks + [ChunkOf(value, |chunks|)];
      }
      ghost var w := Window(start, end, value);
      OneRound(cut, |text|, start, NextStart(w, overlap), overlap, w, before, chunks, all);
      if end >= |text| {
        return;
      }
      start := Max(start + 1, end - overlap);
      assert start == NextStart(w, overlap);
    }
    NothingLeft(chunks);
  }

  method ChunkText(text: string, target: int := TARGET, overlap: int := OVERLAP) returns (chunks: seq<Chunk>)
    ensures chunks == ChunksOf(text, target, overlap)
  {
    if |text| == 0 {
      return [];
    }
    chunks := CutAll(text, target, overlap, CutterOf(text, target));
  }
}
