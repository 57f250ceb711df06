/** Splitting a document into overlapping windows of text. */
module DocumentChunking {
  import opened Arithmetic
  import opened Text16

  const LF: Unit := 0x0A
  const CR: Unit := 0x0D

  // ---------------------------------------------------------- normalisation

  function ReplaceCrLf(s: Text): Text {
    if s == [] then []
    else if |s| >= 2 && s[0] == CR && s[1] == LF then [LF] + ReplaceCrLf(s[2..])
    else [s[0]] + ReplaceCrLf(s[1..])
  }

  function Normalize(content: Text): (r: Text)
    ensures |r| > 0 ==> !IsSpace(r[0]) && !IsSpace(r[|r| - 1])
  {
    Trim(ReplaceCrLf(content))
  }

  /** The text holds a carriage return directly before a line feed. */
  ghost predicate HasCrLf(s: Text) {
    exists i :: 0 <= i < |s| - 1 && s[i] == CR && s[i + 1] == LF
  }

  /** A text without such a pair is left as it is. */
  lemma {:induction false} ReplaceCrLfKeeps(s: Text)
    requires !HasCrLf(s)
    ensures ReplaceCrLf(s) == s
  {
    if s != [] {
      var rest := s[1..];
      assert s == [s[0]] + rest;
      if |s| >= 2 {
        assert !(s[0] == CR && s[1] == LF);
      }
      assert !HasCrLf(rest) by {
        assert forall i | 0 <= i < |rest| :: rest[i] == s[i + 1];
      }
      ReplaceCrLfKeeps(rest);
    }
  }

  /** A pair becomes one line feed, wherever it stands, and what is before and after it is treated apart. */
  lemma {:induction false} ReplaceCrLfPair(a: Text, b: Text)
    ensures ReplaceCrLf(a + [CR, LF] + b) == ReplaceCrLf(a) + [LF] + ReplaceCrLf(b)
    decreases |a|
  {
    var s := a + [CR, LF] + b;
    if a == [] {
      assert s[2..] == b;
    } else if |a| >= 2 && a[0] == CR && a[1] == LF {
      assert s[2..] == a[2..] + [CR, LF] + b;
      ReplaceCrLfPair(a[2..], b);
    } else {
      assert s[0] == a[0] && s[1..] == a[1..] + [CR, LF] + b;
      assert |a| >= 2 ==> s[1] == a[1];
      assert |a| == 1 ==> s[1] == CR;
      ReplaceCrLfPair(a[1..], b);
    }
  }

  /** Normalising is replacing the pairs and trimming what is left. */
  lemma NormalizeIs(content: Text) returns (a: Text, b: Text)
    ensures ReplaceCrLf(content) == a + Normalize(content) + b && AllSpace(a) && AllSpace(b)
    ensures Normalize(content) != [] ==>
              !IsSpace(Normalize(content)[0]) && !IsSpace(Normalize(content)[|Normalize(content)| - 1])
  {
    a, b := TrimIs(ReplaceCrLf(content));
  }

  /** The visible characters of a text, in order. */
  function Visible(s: Text): Text {
    if s == [] then [] else (if IsSpace(s[0]) then [] else [s[0]]) + Visible(s[1..])
  }

  lemma {:induction false} VisibleConcat(a: Text, b: Text)
    ensures Visible(a + b) == Visible(a) + Visible(b)
  {
    if a == [] {
      assert a + b == b;
    } else {
      assert (a + b)[1..] == a[1..] + b;
      VisibleConcat(a[1..], b);
    }
  }

  lemma {:induction false} TrimStartVisible(s: Text)
    ensures Visible(TrimStart(s)) == Visible(s)
  {
    if s != [] && IsSpace(s[0]) {
      TrimStartVisible(s[1..]);
    }
  }

  lemma {:induction false} TrimEndVisible(s: Text)
    ensures Visible(TrimEnd(s)) == Visible(s)
  {
    if s != [] && IsSpace(s[|s| - 1]) {
      TrimEndVisible(s[..|s| - 1]);
      assert s == s[..|s| - 1] + [s[|s| - 1]];
      VisibleConcat(s[..|s| - 1], [s[|s| - 1]]);
    }
  }

  lemma {:induction false} ReplaceCrLfVisible(s: Text)
    ensures Visible(ReplaceCrLf(s)) == Visible(s)
    decreases |s|
  {
    if s != [] {
      if |s| >= 2 && s[0] == CR && s[1] == LF {
        ReplaceCrLfVisible(s[2..]);
        assert s[1..][1..] == s[2..];
        assert Visible(s) == Visible(s[1..]) == Visible(s[2..]);
        assert ([LF] + ReplaceCrLf(s[2..]))[1..] == ReplaceCrLf(s[2..]);
      } else {
        ReplaceCrLfVisible(s[1..]);
        assert ([s[0]] + ReplaceCrLf(s[1..]))[1..] == ReplaceCrLf(s[1..]);
      }
    }
  }

  lemma TrimVisible(s: Text)
    ensures Visible(Trim(s)) == Visible(s)
  {
    TrimStartVisible(s);
    TrimEndVisible(TrimStart(s));
  }

  // ---------------------------------------------------------------- windows

  /** `slice(a, b)` of a Text: negative bounds count from the end. */
  function Slice(s: Text, a: int, b: int): Text {
    var from := if a < 0 then (if |s| + a > 0 then |s| + a else 0) else if a < |s| then a else |s|;
    var to := if b < 0 then (if |s| + b > 0 then |s| + b else 0) else if b < |s| then b else |s|;
    if from < to then s[from..to] else []
  }

  function Min(a: int, b: int): int { if a < b then a else b }
  function Max(a: int, b: int): int { if a > b then a else b }

  /** The raw windows from `cursor` on, before trimming. It ends for all integer sizes and overlaps. */
  function Windows(text: Text, size: int, overlap: int, cursor: nat): seq<Text>
    decreases |text| - cursor
  {
    if cursor >= |text| then []
    else
      var end := Min(cursor + size, |text|);
      [Slice(text, cursor, end)]
      + if end >= |text| then [] else Windows(text, size, overlap, Max(end - overlap, cursor + 1))
  }

  lemma WindowsUnfold(text: Text, size: int, overlap: int, cursor: nat)
    requires cursor < |text|
    ensures var end := Min(cursor + size, |text|);
            Windows(text, size, overlap, cursor)
            == (if end >= |text| then [Slice(text, cursor, end)]
                else [Slice(text, cursor, end)] + Windows(text, size, overlap, Max(end - overlap, cursor + 1)))
  {
    hide Slice;
  }

  lemma NoWindows(text: Text, size: int, overlap: int, cursor: nat)
    requires cursor >= |text|
    ensures Windows(text, size, overlap, cursor) == []
  {
  }

  function NonEmptyTrimmed(ws: seq<Text>): seq<Text> {
    if ws == [] then []
    else
      var rest := NonEmptyTrimmed(ws[..|ws| - 1]);
      var w := Trim(ws[|ws| - 1]);
      if |w| > 0 then rest + [w] else rest
  }

  function Filtered(chunks: seq<Text>): seq<Text> {
    if chunks == [] then []
    else
      var rest := Filtered(chunks[..|chunks| - 1]);
      if |chunks[|chunks| - 1]| > 0 then rest + [chunks[|chunks| - 1]] else rest
  }

  lemma NothingKept()
    ensures Filtered([]) == NonEmptyTrimmed([]) == []
  {
  }

  lemma KeptAppend(chunks: seq<Text>, ws: seq<Text>, w: Text)
    requires Filtered(chunks) == NonEmptyTrimmed(ws)
    ensures Filtered(chunks + [Trim(w)]) == NonEmptyTrimmed(ws + [w])
  {
    hide Trim;
    assert (chunks + [Trim(w)])[..|chunks|] == chunks;
    assert (ws + [w])[..|ws|] == ws;
  }

  /** The window loop: for all integer sizes it terminates and returns the trimmed, non-empty windows. */
  method Chunk(content: Text, chunkSize: int, overlap: int) returns (r: seq<Text>)
    ensures r == NonEmptyTrimmed(Windows(Normalize(content), chunkSize, overlap, 0))
  {
    hide Slice, Trim, Normalize, Windows, Filtered, NonEmptyTrimmed;
    NothingKept();
    var normalized := Normalize(content);
    if normalized == [] {
      NoWindows(normalized, chunkSize, overlap, 0);
      return [];
    }
    var chunks := [];
    var cursor := 0;
    ghost var all := Windows(normalized, chunkSize, overlap, 0);
    ghost var done: seq<Text> := [];
    while cursor < |normalized|
      invariant cursor >= 0
      invariant done + Windows(normalized, chunkSize, overlap, cursor) == all
      invariant Filtered(chunks) == NonEmptyTrimmed(done)
      decreases |normalized| - cursor
    {
      var end := Min(cursor + chunkSize, |normalized|);
      var rawChunk := Slice(normalized, cursor, end);
      WindowsUnfold(normalized, chunkSize, overlap, cursor);
      KeptAppend(chunks, done, rawChunk);
      chunks := chunks + [Trim(rawChunk)];
      done := done + [rawChunk];
      if end >= |normalized| {
        assert done == all;
        return Filtered(chunks);
      }
      cursor := Max(end - overlap, cursor + 1);
      assert done + Windows(normalized, chunkSize, overlap, cursor) == all;
    }
    NoWindows(normalized, chunkSize, overlap, cursor);
    assert done + [] == done;
    return Filtered(chunks);
  }

  function Join(parts: seq<Text>): Text {
    if parts == [] then [] else Join(parts[..|parts| - 1]) + parts[|parts| - 1]
  }

  /** Trimming and filtering drop white space only: the chunks show exactly what the windows show. */
  lemma {:induction false} ChunksLoseOnlySpace(ws: seq<Text>)
    ensures Visible(Join(NonEmptyTrimmed(ws))) == Visible(Join(ws))
  {
    if ws != [] {
      var init, last := ws[..|ws| - 1], ws[|ws| - 1];
      ChunksLoseOnlySpace(init);
      TrimVisible(last);
      VisibleConcat(Join(init), last);
      var rest := NonEmptyTrimmed(init);
      if |Trim(last)| > 0 {
        assert (rest + [Trim(last)])[..|rest|] == rest;
        VisibleConcat(Join(rest), Trim(last));
      }
    }
  }

  // ---------------------------------------------------------- reconstruction

  /** What neighbouring windows share: the overlap, but never a whole window. */
  function Shared(size: int, overlap: int): int {
    Min(overlap, size - 1)
  }

  /** Undo the overlap: the first window, then each later one without its shared prefix. */
  function Rebuild(ws: seq<Text>, shared: nat): Text {
    if ws == [] then []
    else if |ws| == 1 then ws[0]
    else Rebuild(ws[..|ws| - 1], shared) + (if |ws[|ws| - 1]| >= shared then ws[|ws| - 1][shared..] else [])
  }

  /** Every later window starts with the last `shared` characters of the one before. */
  ghost predicate Overlaps(ws: seq<Text>, shared: nat) {
    forall i: nat | i + 1 < |ws| :: Neighbours(ws, i, shared)
  }

  ghost predicate Neighbours(ws: seq<Text>, i: nat, shared: nat)
    requires i + 1 < |ws|
  {
    && |ws[i]| >= shared && |ws[i + 1]| > shared
    && ws[i][|ws[i]| - shared..] == ws[i + 1][..shared]
  }

  lemma OverlapsCons(w: Text, ws: seq<Text>, shared: nat)
    requires Overlaps(ws, shared) && |ws| > 0
    requires |w| >= shared && |ws[0]| > shared && w[|w| - shared..] == ws[0][..shared]
    ensures Overlaps([w] + ws, shared)
  {
    var a := [w] + ws;
    forall i: nat | i + 1 < |a|
      ensures Neighbours(a, i, shared)
    {
      if i > 0 {
        assert Neighbours(ws, i - 1, shared);
      }
    }
  }

  lemma {:induction false} RebuildCons(w: Text, ws: seq<Text>, shared: nat)
    requires forall i | 0 <= i < |ws| :: |ws[i]| >= shared
    requires |ws| > 0
    ensures Rebuild([w] + ws, shared) == w + Rebuild([ws[0][shared..]] + ws[1..], shared)
  {
    var a, b := [w] + ws, [ws[0][shared..]] + ws[1..];
    if |ws| == 1 {
      assert a[..1] == [w] && b == [ws[0][shared..]];
    } else {
      RebuildCons(w, ws[..|ws| - 1], shared);
      assert a[..|a| - 1] == [w] + ws[..|ws| - 1];
      assert b[..|b| - 1] == [ws[0][shared..]] + ws[..|ws| - 1][1..];
      assert a[|a| - 1] == b[|b| - 1] == ws[|ws| - 1];
      assert Rebuild(a, shared) == Rebuild(a[..|a| - 1], shared) + ws[|ws| - 1][shared..];
      assert Rebuild(b, shared) == Rebuild(b[..|b| - 1], shared) + ws[|ws| - 1][shared..];
    }
  }

  /** With a positive size and no negative overlap, neighbouring windows share exactly
      the overlap and the text comes back from the windows. */
  lemma {:induction false} WindowsRebuild(text: Text, size: int, overlap: int, cursor: nat)
    requires size >= 1 && overlap >= 0 && cursor < |text|
    ensures var ws := Windows(text, size, overlap, cursor);
            var shared := Shared(size, overlap);
            && |ws| > 0 && Overlaps(ws, shared)
            && ws[0] == text[cursor..Min(cursor + size, |text|)]
            && Rebuild(ws, shared) == text[cursor..]
            && (|text| - cursor > shared ==> forall i | 0 <= i < |ws| :: |ws[i]| > shared)
    decreases |text| - cursor
  {
    hide Overlaps, Rebuild, Windows, Slice;
    WindowsUnfold(text, size, overlap, cursor);
    SliceIsRange(text, cursor, Min(cursor + size, |text|));
    var shared := Shared(size, overlap);
    var ws := Windows(text, size, overlap, cursor);
    var end := Min(cursor + size, |text|);
    if end < |text| {
      var next := end - shared;
      assert next == Max(end - overlap, cursor + 1);
      var rest := Windows(text, size, overlap, next);
      WindowsRebuild(text, size, overlap, next);
      assert rest[0][..shared] == text[next..end] == text[cursor..end][end - cursor - shared..];
      OverlapsCons(text[cursor..end], rest, shared);
      assert ws == [text[cursor..end]] + rest;
      RebuildCons(text[cursor..end], rest, shared);
      RebuildHead(rest, shared);
      assert text[cursor..] == text[cursor..end] + text[next..][shared..];
    } else {
      SingleWindow(text[cursor..], shared);
      assert text[cursor..end] == text[cursor..];
    }
  }

  lemma SingleWindow(w: Text, shared: nat)
    ensures Overlaps([w], shared) && Rebuild([w], shared) == w
  {
  }

  // Dropping the prefix of the first window drops it from the rebuilt text.
  lemma {:induction false} RebuildHead(ws: seq<Text>, shared: nat)
    requires |ws| > 0 && |ws[0]| >= shared
    ensures |Rebuild(ws, shared)| >= shared
    ensures Rebuild([ws[0][shared..]] + ws[1..], shared) == Rebuild(ws, shared)[shared..]
  {
    if |ws| == 1 {
      assert [ws[0][shared..]] + ws[1..] == [ws[0][shared..]];
    } else {
      RebuildHead(ws[..|ws| - 1], shared);
      var b := [ws[0][shared..]] + ws[1..];
      assert b[..|b| - 1] == [ws[0][shared..]] + ws[..|ws| - 1][1..];
    }
  }

  /** The windows of a document give back its normalised text, and normalising has kept
      every visible character of the document. */
  lemma DocumentKept(content: Text, size: int, overlap: int)
    requires size >= 1 && overlap >= 0
    ensures Rebuild(Windows(Normalize(content), size, overlap, 0), Shared(size, overlap)) == Normalize(content)
    ensures Visible(Normalize(content)) == Visible(content)
  {
    hide Overlaps;
    var text := Normalize(content);
    TrimVisible(ReplaceCrLf(content));
    ReplaceCrLfVisible(content);
    if |text| > 0 {
      WindowsRebuild(text, size, overlap, 0);
    }
  }

  /** How many windows there are: one, plus one per started step over the rest of the text. */
  lemma {:induction false} WindowCount(text: Text, size: int, overlap: int, cursor: nat)
    requires 0 <= overlap < size && cursor < |text|
    ensures |Windows(text, size, overlap, cursor)|
         == if |text| - cursor <= size then 1
            else 1 + (|text| - cursor - size + (size - overlap) - 1) / (size - overlap)
    decreases |text| - cursor
  {
    if cursor + size < |text| {
      var step := size - overlap;
      var a := |text| - cursor - size;
      WindowCount(text, size, overlap, cursor + step);
      if a > step {
        assert (a + step - 1) / step == 1 + (a - step + step - 1) / step by { DivStep(a - 1, step); }
      } else {
        assert (a + step - 1) / step == 1 by { DivStep(a - 1, step); }
      }
    }
  }

  lemma DivStep(a: int, d: int)
    requires d > 0
    ensures (a + d) / d == a / d + 1
    ensures 0 <= a < d ==> a / d == 0
  {
    QuotientUnique(a + d, d, a / d + 1, a % d);
    if 0 <= a < d {
      QuotientUnique(a, d, 0, a);
    }
  }

  // --------------------------------------------------------------- coverage

  /** The windows as ranges of positions in a text of length `n`. */
  function Ranges(n: nat, size: int, overlap: int, cursor: nat): (r: seq<(nat, nat)>)
    ensures forall k | 0 <= k < |r| :: r[k].0 <= r[k].1 <= n
    decreases n - cursor
  {
    if cursor >= n then []
    else
      var end := Min(cursor + size, n);
      var to := Max(cursor, if end < 0 then n + end else end);
      [(cursor, to)] + if end >= n then [] else Ranges(n, size, overlap, Max(end - overlap, cursor + 1))
  }

  lemma SliceIsRange(text: Text, cursor: nat, end: int)
    requires cursor < |text| && end <= |text|
    ensures Slice(text, cursor, end) == text[cursor..Max(cursor, if end < 0 then |text| + end else end)]
  {
  }

  /** Each window is the text at its range. */
  lemma {:induction false} WindowsAreRanges(text: Text, size: int, overlap: int, cursor: nat)
    ensures var ws, rs := Windows(text, size, overlap, cursor), Ranges(|text|, size, overlap, cursor);
            |ws| == |rs| && forall k | 0 <= k < |ws| :: ws[k] == text[rs[k].0..rs[k].1]
    decreases |text| - cursor
  {
    hide Slice;
    if cursor < |text| {
      var end := Min(cursor + size, |text|);
      SliceIsRange(text, cursor, end);
      if end < |text| {
        WindowsAreRanges(text, size, overlap, Max(end - overlap, cursor + 1));
      }
    }
  }

  predicate Covers(rs: seq<(nat, nat)>, i: nat) {
    exists k :: 0 <= k < |rs| && rs[k].0 <= i < rs[k].1
  }

  lemma CoversCons(r: (nat, nat), rs: seq<(nat, nat)>, i: nat)
    ensures Covers([r] + rs, i) <==> r.0 <= i < r.1 || Covers(rs, i)
  {
    var a := [r] + rs;
    if Covers(a, i) {
      var k :| 0 <= k < |a| && a[k].0 <= i < a[k].1;
      assert k == 0 || rs[k - 1] == a[k];
    }
    if r.0 <= i < r.1 {
      assert a[0] == r;
    } else if Covers(rs, i) {
      var k :| 0 <= k < |rs| && rs[k].0 <= i < rs[k].1;
      assert a[k + 1] == rs[k];
    }
  }

  lemma CoversNone(i: nat)
    ensures !Covers([], i)
  {
  }

  // One unfolding of the ranges, for one position.
  lemma CoversStep(n: nat, size: int, overlap: int, cursor: nat, i: nat)
    requires cursor < n
    ensures var end := Min(cursor + size, n);
            var to := Max(cursor, if end < 0 then n + end else end);
            Covers(Ranges(n, size, overlap, cursor), i)
            == (cursor <= i < to || (end < n && Covers(Ranges(n, size, overlap, Max(end - overlap, cursor + 1)), i)))
  {
    hide Covers;
    CoversNone(i);
    var end := Min(cursor + size, n);
    var to := Max(cursor, if end < 0 then n + end else end);
    CoversCons((cursor, to), if end >= n then [] else Ranges(n, size, overlap, Max(end - overlap, cursor + 1)), i);
  }

  lemma {:induction false} CoveredAll(n: nat, size: int, overlap: int, cursor: nat, i: nat)
    requires size >= 1 && (overlap >= 0 || n - cursor <= size) && cursor <= i < n
    ensures Covers(Ranges(n, size, overlap, cursor), i)
    decreases n - cursor
  {
    CoversStep(n, size, overlap, cursor, i);
    var end := Min(cursor + size, n);
    if end <= i {
      CoveredAll(n, size, overlap, Max(end - overlap, cursor + 1), i);
    }
  }

  lemma {:induction false} LastUncovered(n: nat, size: int, overlap: int, cursor: nat)
    requires size <= 0 && n > 0
    ensures !Covers(Ranges(n, size, overlap, cursor), n - 1)
    decreases n - cursor
  {
    if cursor < n {
      CoversStep(n, size, overlap, cursor, n - 1);
      LastUncovered(n, size, overlap, Max(Min(cursor + size, n) - overlap, cursor + 1));
    }
  }

  lemma {:induction false} NothingBehind(n: nat, size: int, overlap: int, cursor: nat, i: nat)
    requires i < cursor
    ensures !Covers(Ranges(n, size, overlap, cursor), i)
    decreases n - cursor
  {
    if cursor < n {
      CoversStep(n, size, overlap, cursor, i);
      NothingBehind(n, size, overlap, Max(Min(cursor + size, n) - overlap, cursor + 1), i);
    }
  }

  /** Exactly which settings lose no character of a non-empty text: a positive size, and
      no negative overlap unless one window is enough. */
  lemma CoverageIff(n: nat, size: int, overlap: int)
    requires n > 0
    ensures (forall i: nat | i < n :: Covers(Ranges(n, size, overlap, 0), i))
       <==> size >= 1 && (overlap >= 0 || n <= size)
  {
    if size >= 1 && (overlap >= 0 || n <= size) {
      forall i: nat | i < n
        ensures Covers(Ranges(n, size, overlap, 0), i)
      {
        CoveredAll(n, size, overlap, 0, i);
      }
    } else if size <= 0 {
      LastUncovered(n, size, overlap, 0);
    } else {
      CoversStep(n, size, overlap, 0, size);
      NothingBehind(n, size, overlap, Max(size - overlap, 1), size);
    }
  }

  /** The caller's guard, an overlap below the size, lets settings through that lose text: with size 5 and
      overlap -1 the sixth of ten units is in no window. */
  lemma GuardedSettingsLoseText()
    ensures var size, overlap := 5, -1;
            overlap < size && Ranges(10, size, overlap, 0) == [(0, 5), (6, 10)]
                && !Covers(Ranges(10, size, overlap, 0), 5)
  {
    assert Ranges(10, 5, -1, 6) == [(6, 10)];
  }
}
