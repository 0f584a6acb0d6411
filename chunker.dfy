/** TextChunker: whitespace normalisation and the sliding-window chunker
    with word-boundary snapping and overlap (app/core/rag.py). */
module Chunker {

  /** Python's `str.isspace`: U+0009..U+000D, U+001C..U+0020, U+0085, U+00A0,
      U+1680, U+2000..U+200A, U+2028, U+2029, U+202F, U+205F and U+3000. These are
      also what `\s` matches in a `str` pattern and what `str.strip()` removes. */
  predicate IsWhitespace(c: char)
  {
    var n := c as int;
    if n <= 32 then 9 <= n <= 13 || 28 <= n
    else if n < 0x2000 then n == 0x85 || n == 0xA0 || n == 0x1680
    else n <= 0x200A || n == 0x2028 || n == 0x2029 || n == 0x202F || n == 0x205F || n == 0x3000
  }

  // ---------------------------------------------------------------------
  // Whitespace normalisation
  // ---------------------------------------------------------------------

  /** Drops the leading run of whitespace. */
  function TrimStart(s: string): (r: string)
    ensures |r| <= |s|
    ensures s != [] && IsWhitespace(s[0]) ==> |r| < |s|
  {
    if s != [] && IsWhitespace(s[0]) then TrimStart(s[1..]) else s
  }

  /** Drops the trailing run of whitespace. */
  function TrimEnd(s: string): (r: string)
    ensures |r| <= |s|
  {
    if s != [] && IsWhitespace(s[|s| - 1]) then TrimEnd(s[..|s| - 1]) else s
  }

  /** `TrimStart` removes a prefix made only of whitespace and leaves nothing
      that starts with whitespace. */
  lemma {:induction false} TrimStartFacts(s: string)
    ensures var r := TrimStart(s);
      && r == s[|s| - |r|..]
      && (r == [] || !IsWhitespace(r[0]))
      && (forall i :: 0 <= i < |s| - |r| ==> IsWhitespace(s[i]))
    decreases |s|
  {
    if s != [] && IsWhitespace(s[0]) {
      TrimStartFacts(s[1..]);
      assert forall i :: 1 <= i < |s| ==> s[i] == s[1..][i - 1];
    }
  }

  /** `TrimEnd` removes a suffix made only of whitespace and leaves nothing
      that ends with whitespace. */
  lemma {:induction false} TrimEndFacts(s: string)
    ensures var r := TrimEnd(s);
      && r == s[..|r|]
      && (r == [] || !IsWhitespace(r[|r| - 1]))
      && (forall i :: |r| <= i < |s| ==> IsWhitespace(s[i]))
    decreases |s|
  {
    if s != [] && IsWhitespace(s[|s| - 1]) {
      var p := s[..|s| - 1];
      TrimEndFacts(p);
      var r := TrimEnd(p);
      assert p[..|r|] == s[..|r|];
      assert forall i :: |r| <= i < |p| ==> p[i] == s[i];
    }
  }

  /** `s.strip()`: a slice of `s` with no whitespace at either end, empty
      exactly when `s` is all whitespace. */
  function Strip(s: string): string
  {
    TrimEnd(TrimStart(s))
  }

  /** What `strip()` returns: a slice of its argument with no whitespace at either
      end, empty exactly when the argument is all whitespace. */
  lemma {:induction false} StripFacts(s: string)
    ensures var r := Strip(s);
      && (r == [] || (!IsWhitespace(r[0]) && !IsWhitespace(r[|r| - 1])))
      && (var a := |s| - |TrimStart(s)|; a + |r| <= |s| && r == s[a..a + |r|])
      && (r == [] <==> forall i :: 0 <= i < |s| ==> IsWhitespace(s[i]))
  {
    var u := TrimStart(s);
    var r := TrimEnd(u);
    var a := |s| - |u|;
    TrimStartFacts(s);
    TrimEndFacts(u);
    assert u == s[a..];
    assert r == u[..|r|];
    assert r == s[a..a + |r|];
    if r != [] {
      assert r[0] == u[0];
      assert s[a] == u[0];
    }
  }

  /** Every whitespace character is a plain space and no two are adjacent. */
  predicate SingleSpaced(t: string)
  {
    && (forall i :: 0 <= i < |t| && IsWhitespace(t[i]) ==> t[i] == ' ')
    && (forall i, j :: 0 <= i < |t| && 0 <= j < |t| && j == i + 1 && IsWhitespace(t[i]) ==> !IsWhitespace(t[j]))
  }

  /** What `_clean_text` promises: single-spaced, nothing to strip at the ends. */
  predicate IsClean(t: string)
  {
    SingleSpaced(t) && (t != [] ==> !IsWhitespace(t[0]) && !IsWhitespace(t[|t| - 1]))
  }

  /** `re.sub(r'\s+', ' ', s)`: every maximal run of whitespace becomes one space. */
  function Collapse(s: string): (r: string)
    ensures |r| <= |s|
    ensures r == [] <==> s == []
    ensures s != [] ==> (IsWhitespace(r[0]) <==> IsWhitespace(s[0]))
    decreases |s|
  {
    if s == [] then []
    else if IsWhitespace(s[0]) then [' '] + Collapse(TrimStart(s))
    else [s[0]] + Collapse(s[1..])
  }

  /** What the whitespace collapse leaves is single-spaced. */
  lemma {:induction false} CollapseSingleSpaced(s: string)
    ensures SingleSpaced(Collapse(s))
    decreases |s|
  {
    if s != [] {
      var head := if IsWhitespace(s[0]) then ' ' else s[0];
      var rest := if IsWhitespace(s[0]) then TrimStart(s) else s[1..];
      if IsWhitespace(s[0]) {
        TrimStartFacts(s);
      }
      CollapseSingleSpaced(rest);
      var c := Collapse(rest);
      assert Collapse(s) == [head] + c;
      assert forall i :: 1 <= i < |[head] + c| ==> ([head] + c)[i] == c[i - 1];
    }
  }

  /** Dropping a whitespace run in front of text that does not start with whitespace. */
  lemma {:induction false} TrimStartRun(w: string, b: string)
    requires forall i :: 0 <= i < |w| ==> IsWhitespace(w[i])
    requires b == [] || !IsWhitespace(b[0])
    ensures TrimStart(w + b) == b
    decreases |w|
  {
    if w == [] {
      assert w + b == b;
    } else {
      assert (w + b)[1..] == w[1..] + b;
      TrimStartRun(w[1..], b);
    }
  }

  /** Leading whitespace of `a` is all that is trimmed when `a` ends in a non-whitespace character. */
  lemma {:induction false} TrimStartConcat(a: string, rest: string)
    requires a != [] && !IsWhitespace(a[|a| - 1])
    ensures TrimStart(a + rest) == TrimStart(a) + rest
    ensures TrimStart(a) != [] && TrimStart(a)[|TrimStart(a)| - 1] == a[|a| - 1]
    decreases |a|
  {
    if IsWhitespace(a[0]) {
      assert (a + rest)[1..] == a[1..] + rest;
      TrimStartConcat(a[1..], rest);
    }
  }

  /** One step of `Collapse` on a leading non-whitespace character. */
  lemma CollapseWord(c: char, rest: string)
    requires !IsWhitespace(c)
    ensures Collapse([c] + rest) == [c] + Collapse(rest)
  {
    assert ([c] + rest)[1..] == rest;
  }

  /** One step of `Collapse` on a leading whitespace run. */
  lemma CollapseSpace(s: string)
    requires s != [] && IsWhitespace(s[0])
    ensures Collapse(s) == [' '] + Collapse(TrimStart(s))
  {
  }

  /** `CollapseRun` for an empty `a`: the run becomes the leading space. */
  lemma CollapseRunStart(w: string, b: string)
    requires w != [] && forall i :: 0 <= i < |w| ==> IsWhitespace(w[i])
    requires b == [] || !IsWhitespace(b[0])
    ensures Collapse(w + b) == [' '] + Collapse(b)
  {
    TrimStartRun(w, b);
    CollapseSpace(w + b);
  }

  /** `CollapseRun` carried over a leading non-whitespace character. */
  lemma CollapseRunWord(a: string, x: string, tail: string)
    requires a != [] && !IsWhitespace(a[0])
    requires Collapse(a[1..] + x) == Collapse(a[1..]) + tail
    ensures Collapse(a + x) == Collapse(a) + tail
  {
    var a1 := a[1..];
    assert a == [a[0]] + a1;
    assert a + x == [a[0]] + (a1 + x);
    CollapseWord(a[0], a1 + x);
    CollapseWord(a[0], a1);
    AppendAssoc([a[0]], Collapse(a1), tail);
  }

  /** `CollapseRun` carried over a leading whitespace run of `a`. */
  lemma CollapseRunSpace(a: string, x: string, tail: string)
    requires a != [] && IsWhitespace(a[0]) && !IsWhitespace(a[|a| - 1])
    requires Collapse(TrimStart(a) + x) == Collapse(TrimStart(a)) + tail
    ensures Collapse(a + x) == Collapse(a) + tail
  {
    TrimStartConcat(a, x);
    CollapseSpace(a + x);
    CollapseSpace(a);
    AppendAssoc([' '], Collapse(TrimStart(a)), tail);
  }

  /** A run of whitespace between a non-whitespace character and text that does not
      start with whitespace becomes exactly one space: words stay separated. */
  lemma {:induction false} CollapseRun(a: string, w: string, b: string)
    requires a != [] && !IsWhitespace(a[|a| - 1])
    requires w != [] && forall i :: 0 <= i < |w| ==> IsWhitespace(w[i])
    requires b == [] || !IsWhitespace(b[0])
    ensures Collapse(a + w + b) == Collapse(a) + [' '] + Collapse(b)
    decreases |a|, 1
  {
    if !IsWhitespace(a[0]) {
      CollapseRunWordFirst(a, w, b);
    } else {
      CollapseRunSpaceFirst(a, w, b);
    }
  }

  /** `CollapseRun` when `a` starts with a non-whitespace character. */
  lemma {:induction false} CollapseRunWordFirst(a: string, w: string, b: string)
    requires a != [] && !IsWhitespace(a[0]) && !IsWhitespace(a[|a| - 1])
    requires w != [] && forall i :: 0 <= i < |w| ==> IsWhitespace(w[i])
    requires b == [] || !IsWhitespace(b[0])
    ensures Collapse(a + w + b) == Collapse(a) + [' '] + Collapse(b)
    decreases |a|, 0
  {
    var x := w + b;
    var tail := [' '] + Collapse(b);
    var a1 := a[1..];
    assert a + w + b == a + x;
    assert a1 + w + b == a1 + x;
    AppendAssoc(Collapse(a), [' '], Collapse(b));
    AppendAssoc(Collapse(a1), [' '], Collapse(b));
    if a1 == [] {
      assert a1 + x == x;
      CollapseRunStart(w, b);
    } else {
      CollapseRun(a1, w, b);
    }
    CollapseRunWord(a, x, tail);
  }

  /** `CollapseRun` when `a` starts with whitespace. */
  lemma {:induction false} CollapseRunSpaceFirst(a: string, w: string, b: string)
    requires a != [] && IsWhitespace(a[0]) && !IsWhitespace(a[|a| - 1])
    requires w != [] && forall i :: 0 <= i < |w| ==> IsWhitespace(w[i])
    requires b == [] || !IsWhitespace(b[0])
    ensures Collapse(a + w + b) == Collapse(a) + [' '] + Collapse(b)
    decreases |a|, 0
  {
    var x := w + b;
    var tail := [' '] + Collapse(b);
    TrimStartConcat(a, x);
    var a' := TrimStart(a);
    assert a + w + b == a + x;
    assert a' + w + b == a' + x;
    AppendAssoc(Collapse(a), [' '], Collapse(b));
    AppendAssoc(Collapse(a'), [' '], Collapse(b));
    CollapseRun(a', w, b);
    CollapseRunSpace(a, x, tail);
  }

  /** `TextChunker._clean_text` */
  function Clean(s: string): string
  {
    Strip(Collapse(s))
  }

  /** The non-whitespace characters of `s`, in order. */
  function NonWhitespace(s: string): string
  {
    if s == [] then [] else (if IsWhitespace(s[0]) then [] else [s[0]]) + NonWhitespace(s[1..])
  }

  lemma {:induction false} SingleSpacedSlice(t: string, a: nat, b: nat)
    requires SingleSpaced(t) && a <= b <= |t|
    ensures SingleSpaced(t[a..b])
  {
    var u := t[a..b];
    assert forall i :: 0 <= i < |u| ==> u[i] == t[a + i];
  }

  /** The output of `_clean_text` is clean. */
  lemma {:induction false} CleanIsClean(s: string)
    ensures IsClean(Clean(s))
  {
    CollapseSingleSpaced(s);
    StripSingleSpaced(Collapse(s));
  }

  /** A single-spaced string is left alone by the whitespace collapse. */
  lemma {:induction false} CollapseFixesSingleSpaced(t: string)
    requires SingleSpaced(t)
    ensures Collapse(t) == t
    decreases |t|
  {
    if t != [] {
      SingleSpacedSlice(t, 1, |t|);
      CollapseFixesSingleSpaced(t[1..]);
      if IsWhitespace(t[0]) {
        assert t[1..] == [] || !IsWhitespace(t[1..][0]);
        assert TrimStart(t[1..]) == t[1..];
      }
      assert t == [t[0]] + t[1..];
    }
  }

  /** Clean text is a fixed point of `_clean_text`. */
  lemma {:induction false} CleanFixesCleanText(t: string)
    requires IsClean(t)
    ensures Clean(t) == t
  {
    CollapseFixesSingleSpaced(t);
  }

  /** `_clean_text` is idempotent. */
  lemma {:induction false} CleanIdempotent(s: string)
    ensures Clean(Clean(s)) == Clean(s)
  {
    CleanIsClean(s);
    CleanFixesCleanText(Clean(s));
  }

  lemma {:induction false} NonWhitespaceConcat(a: string, b: string)
    ensures NonWhitespace(a + b) == NonWhitespace(a) + NonWhitespace(b)
    decreases |a|
  {
    if a != [] {
      assert (a + b)[1..] == a[1..] + b;
      NonWhitespaceConcat(a[1..], b);
    } else {
      assert a + b == b;
    }
  }

  lemma {:induction false} NonWhitespaceEmpty(s: string)
    ensures NonWhitespace(s) == [] <==> forall i :: 0 <= i < |s| ==> IsWhitespace(s[i])
    decreases |s|
  {
    if s != [] {
      NonWhitespaceEmpty(s[1..]);
      assert forall i :: 1 <= i < |s| ==> s[i] == s[1..][i - 1];
    }
  }

  lemma {:induction false} TrimStartKeepsText(s: string)
    ensures NonWhitespace(TrimStart(s)) == NonWhitespace(s)
  {
    var r := TrimStart(s);
    var k := |s| - |r|;
    TrimStartFacts(s);
    assert s == s[..k] + r;
    NonWhitespaceConcat(s[..k], r);
    NonWhitespaceEmpty(s[..k]);
  }

  lemma {:induction false} TrimEndKeepsText(s: string)
    ensures NonWhitespace(TrimEnd(s)) == NonWhitespace(s)
  {
    var r := TrimEnd(s);
    TrimEndFacts(s);
    assert s == r + s[|r|..];
    NonWhitespaceConcat(r, s[|r|..]);
    NonWhitespaceEmpty(s[|r|..]);
  }

  lemma {:induction false} CollapseKeepsText(s: string)
    ensures NonWhitespace(Collapse(s)) == NonWhitespace(s)
    decreases |s|
  {
    if s != [] {
      if IsWhitespace(s[0]) {
        var rest := TrimStart(s);
        CollapseKeepsText(rest);
        NonWhitespaceConcat([' '], Collapse(rest));
        TrimStartKeepsText(s);
      } else {
        CollapseKeepsText(s[1..]);
        NonWhitespaceConcat([s[0]], Collapse(s[1..]));
      }
    }
  }

  /** `_clean_text` removes whitespace only: the other characters survive, in order. */
  lemma {:induction false} CleanKeepsText(s: string)
    ensures NonWhitespace(Clean(s)) == NonWhitespace(s)
  {
    CollapseKeepsText(s);
    TrimStartKeepsText(Collapse(s));
    TrimEndKeepsText(TrimStart(Collapse(s)));
  }

  /** `_clean_text` gives "" exactly for all-whitespace input. */
  lemma {:induction false} CleanEmptyIff(s: string)
    ensures Clean(s) == [] <==> forall i :: 0 <= i < |s| ==> IsWhitespace(s[i])
  {
    var t := Clean(s);
    CleanKeepsText(s);
    NonWhitespaceEmpty(s);
    NonWhitespaceEmpty(t);
    CleanIsClean(s);
  }

  // ---------------------------------------------------------------------
  // The sliding window
  // ---------------------------------------------------------------------

  /** `t.rfind(c, lo, hi)`: the last position in [lo, hi) holding `c`, or -1. */
  function RFind(t: string, c: char, lo: int, hi: int): (p: int)
    requires 0 <= lo && hi <= |t|
    ensures p == -1 || (lo <= p < hi && t[p] == c)
    ensures p == -1 ==> forall q :: lo <= q < hi ==> t[q] != c
    ensures p != -1 ==> forall q :: p < q < hi ==> t[q] != c
    decreases hi - lo
  {
    if hi <= lo then -1 else if t[hi - 1] == c then hi - 1 else RFind(t, c, lo, hi - 1)
  }

  /** A space strictly inside the window that starts at `start`. */
  predicate SpaceInside(t: string, size: nat, start: nat)
  {
    exists p :: start < p < start + size && p < |t| && t[p] == ' '
  }

  /** The end of the window starting at `start`: when the window does not reach the
      end of the text and a space lies strictly inside it, the last such space;
      otherwise exactly `size` characters on. */
  function WindowEnd(t: string, size: nat, start: nat): (end: nat)
    requires start < |t|
    ensures start <= end <= start + size
    ensures size >= 1 ==> start < end
    ensures start + size < |t| && SpaceInside(t, size, start) ==>
              && start < end < start + size && t[end] == ' '
              && forall q :: end < q < start + size ==> t[q] != ' '
    ensures !(start + size < |t| && SpaceInside(t, size, start)) ==> end == start + size
  {
    var candidate := start + size;
    if candidate < |t| then
      var p := RFind(t, ' ', start, candidate);
      if p > start then p else candidate
    else candidate
  }

  /** How the next start is chosen: back off by the overlap, or jump to the end
      of the window when that would not move forward. */
  function NextStart(start: nat, end: nat, overlap: int): (next: nat)
    requires start <= end
    ensures end - overlap > start ==> next == end - overlap
    ensures end - overlap <= start ==> next == end
    ensures start <= next
    ensures overlap >= 0 ==> next <= end
    ensures start < end ==> start < next
  {
    if end - overlap <= start then end else end - overlap
  }

  datatype Window = Window(start: nat, end: nat)

  /** The windows `chunk_text` visits from `start` when the previous start was
      `prevStart`: it stops once `start` reaches the end of the text or did not move. */
  function WindowsFrom(t: string, size: nat, overlap: int, start: nat, prevStart: int): seq<Window>
    decreases |t| - start, if start == prevStart then 0 else 1
  {
    if start >= |t| || start == prevStart then []
    else
      var end := WindowEnd(t, size, start);
      [Window(start, end)] + WindowsFrom(t, size, overlap, NextStart(start, end, overlap), start)
  }

  /** Every visited window starts inside the text at or after `start`, ends where
      `WindowEnd` says, and the next window starts where `NextStart` says. */
  lemma {:induction false} WindowsFromSteps(t: string, size: nat, overlap: int, start: nat, prevStart: int)
    ensures var ws := WindowsFrom(t, size, overlap, start, prevStart);
      && (ws != [] ==> ws[0].start == start)
      && (forall i :: 0 <= i < |ws| ==>
            && start <= ws[i].start < |t|
            && ws[i].start <= ws[i].end
            && ws[i].end == WindowEnd(t, size, ws[i].start))
      && (forall i :: 0 <= i < |ws| - 1 ==>
            ws[i + 1].start == NextStart(ws[i].start, ws[i].end, overlap))
    decreases |t| - start, if start == prevStart then 0 else 1
  {
    if start < |t| && start != prevStart {
      var end := WindowEnd(t, size, start);
      var next := NextStart(start, end, overlap);
      WindowsFromSteps(t, size, overlap, next, start);
      var ws := WindowsFrom(t, size, overlap, start, prevStart);
      var rest := WindowsFrom(t, size, overlap, next, start);
      assert ws == [Window(start, end)] + rest;
      assert forall i :: 1 <= i < |ws| ==> ws[i] == rest[i - 1];
    }
  }

  /** One iteration of the loop: the chunks from `start` are this window's piece
      followed by the chunks from the next start. */
  lemma {:induction false} ChunksFromStep(t: string, size: nat, overlap: int, start: nat, prevStart: int)
    requires start < |t| && start != prevStart
    ensures var end := WindowEnd(t, size, start);
      var piece := Piece(t, Window(start, end));
      ChunksOf(t, WindowsFrom(t, size, overlap, start, prevStart))
      == (if piece != [] then [piece] else [])
         + ChunksOf(t, WindowsFrom(t, size, overlap, NextStart(start, end, overlap), start))
  {
    var end := WindowEnd(t, size, start);
    var ws := WindowsFrom(t, size, overlap, start, prevStart);
    assert ws[1..] == WindowsFrom(t, size, overlap, NextStart(start, end, overlap), start);
    assert Pieces(t, ws) == [Piece(t, ws[0])] + Pieces(t, ws[1..]);
    NonEmptyCons(Piece(t, ws[0]), Pieces(t, ws[1..]));
  }

  /** One pass of the `chunk_text` loop, stated on what is collected so far. */
  lemma {:induction false} ChunkLoopStep(t: string, size: nat, overlap: int, start: nat, prevStart: int,
                                         before: seq<string>)
    requires start < |t| && start != prevStart
    ensures var end := WindowEnd(t, size, start);
      var piece := Piece(t, Window(start, end));
      before + ChunksOf(t, WindowsFrom(t, size, overlap, start, prevStart))
      == (before + (if piece != [] then [piece] else []))
         + ChunksOf(t, WindowsFrom(t, size, overlap, NextStart(start, end, overlap), start))
  {
    var end := WindowEnd(t, size, start);
    var piece := Piece(t, Window(start, end));
    ChunksFromStep(t, size, overlap, start, prevStart);
    AppendAssoc(before, if piece != [] then [piece] else [],
                ChunksOf(t, WindowsFrom(t, size, overlap, NextStart(start, end, overlap), start)));
  }

  lemma AppendAssoc<T>(a: seq<T>, b: seq<T>, c: seq<T>)
    ensures (a + b) + c == a + (b + c)
  {
  }

  /** The windows of the whole (cleaned) text. */
  function Windows(t: string, size: nat, overlap: int): seq<Window>
  {
    WindowsFrom(t, size, overlap, 0, -1)
  }

  /** `t[a:b]` with Python's clamping of out-of-range bounds. */
  function PySlice(t: string, a: nat, b: nat): (r: string)
    ensures |r| <= if b < a then 0 else b - a
  {
    var lo := if a < |t| then a else |t|;
    var hi := if b < |t| then b else |t|;
    if hi <= lo then [] else t[lo..hi]
  }

  /** The stripped slice of one window. */
  function Piece(t: string, w: Window): string
  {
    Strip(PySlice(t, w.start, w.end))
  }

  /** The stripped slice of each window, in window order. */
  function Pieces(t: string, ws: seq<Window>): (ps: seq<string>)
    ensures |ps| == |ws|
    ensures forall i :: 0 <= i < |ws| ==> ps[i] == Piece(t, ws[i])
  {
    if ws == [] then [] else [Piece(t, ws[0])] + Pieces(t, ws[1..])
  }

  /** The non-empty strings of `ps`, in order: `if chunk:` before appending. */
  function NonEmpty(ps: seq<string>): seq<string>
  {
    if ps == [] then [] else (if ps[0] != [] then [ps[0]] else []) + NonEmpty(ps[1..])
  }

  /** The stripped slice of each window, keeping the non-empty ones. */
  function ChunksOf(t: string, ws: seq<Window>): seq<string>
  {
    NonEmpty(Pieces(t, ws))
  }

  lemma {:induction false} NonEmptyCons(p: string, ps: seq<string>)
    ensures NonEmpty([p] + ps) == (if p != [] then [p] else []) + NonEmpty(ps)
  {
    assert ([p] + ps)[1..] == ps;
  }

  /** What `NonEmpty` keeps: non-empty members of its argument. */
  lemma {:induction false} NonEmptyElements(ps: seq<string>)
    ensures forall c :: c in NonEmpty(ps) ==> c in ps && c != []
  {
    if ps != [] {
      NonEmptyElements(ps[1..]);
      var head := if ps[0] != [] then [ps[0]] else [];
      assert NonEmpty(ps) == head + NonEmpty(ps[1..]);
      forall c | c in NonEmpty(ps)
        ensures c in ps && c != []
      {
        if c !in NonEmpty(ps[1..]) {
          assert c == ps[0];
        }
      }
    }
  }

  /** The position in `ps` that kept string `j` comes from. */
  lemma {:induction false} NonEmptySource(ps: seq<string>, j: nat) returns (i: nat)
    requires j < |NonEmpty(ps)|
    ensures i < |ps| && NonEmpty(ps)[j] == ps[i]
    decreases |ps|
  {
    var rest := NonEmpty(ps[1..]);
    if ps[0] != [] {
      assert NonEmpty(ps) == [ps[0]] + rest;
      if j == 0 {
        i := 0;
      } else {
        var k := NonEmptySource(ps[1..], j - 1);
        i := k + 1;
      }
    } else {
      assert NonEmpty(ps) == rest;
      var k := NonEmptySource(ps[1..], j);
      i := k + 1;
    }
  }

  /** What `TextChunker(chunk_size=size, chunk_overlap=overlap).chunk_text(text)` returns. */
  function Chunk(text: string, size: nat, overlap: int): seq<string>
  {
    var t := Clean(text);
    if |t| <= size then (if t == [] then [] else [t])
    else ChunksOf(t, Windows(t, size, overlap))
  }

  /** The `while` loop of `chunk_text`: slide a window over the cleaned text,
      snapping each end back to a space, and collect the stripped pieces. */
  method SlideWindows(t: string, chunkSize: nat, chunkOverlap: int) returns (chunks: seq<string>)
    ensures chunks == ChunksOf(t, Windows(t, chunkSize, chunkOverlap))
  {
    chunks := [];
    var start: nat := 0;
    var prevStart: int := -1;
    while start < |t|
      invariant prevStart <= start
      invariant chunks + ChunksOf(t, WindowsFrom(t, chunkSize, chunkOverlap, start, prevStart))
                == ChunksOf(t, Windows(t, chunkSize, chunkOverlap))
      decreases |t| - start, if start == prevStart then 0 else 1
    {
      if start == prevStart {
        break;
      }
      ChunkLoopStep(t, chunkSize, chunkOverlap, start, prevStart, chunks);
      ghost var before := chunks;
      prevStart := start;
      var end: nat := start + chunkSize;
      if end < |t| {
        var spacePos := RFind(t, ' ', start, end);
        if spacePos > start {
          end := spacePos;
        }
      }
      assert end == WindowEnd(t, chunkSize, start);
      var chunk := Piece(t, Window(start, end));
      if chunk != [] {
        chunks := chunks + [chunk];
      }
      assert chunks == before + (if chunk != [] then [chunk] else []);
      var nextStart := end - chunkOverlap;
      if nextStart <= start {
        start := end;
      } else {
        start := nextStart;
      }
      assert start == NextStart(prevStart, end, chunkOverlap);
    }
  }

  /** `TextChunker.chunk_text`. With a negative `chunk_size` the source loop may
      fail to terminate, so that case is excluded. */
  method ChunkText(text: string, chunkSize: int, chunkOverlap: int) returns (chunks: seq<string>)
    requires chunkSize >= 0
    ensures chunks == Chunk(text, chunkSize, chunkOverlap)
    ensures forall i :: 0 <= i < |chunks| ==>
              chunks[i] != [] && |chunks[i]| <= chunkSize && IsClean(chunks[i])
  {
    var t := Clean(text);
    if |t| <= chunkSize {
      CleanIsClean(text);
      chunks := if t != [] then [t] else [];
      return;
    }
    chunks := SlideWindows(t, chunkSize, chunkOverlap);
    ChunksWellFormed(text, chunkSize, chunkOverlap);
  }

  // ---------------------------------------------------------------------
  // Properties of the chunker
  // ---------------------------------------------------------------------

  /** The stripped slice of a clean text is non-empty-or-dropped, clean and no
      longer than the window. */
  lemma {:induction false} PieceWellFormed(t: string, w: Window)
    requires IsClean(t) && w.start <= w.end
    ensures var piece := Piece(t, w);
      |piece| <= w.end - w.start && IsClean(piece)
  {
    PySliceSingleSpaced(t, w.start, w.end);
    StripSingleSpaced(PySlice(t, w.start, w.end));
  }

  lemma {:induction false} PySliceSingleSpaced(t: string, a: nat, b: nat)
    requires SingleSpaced(t)
    ensures SingleSpaced(PySlice(t, a, b))
  {
    var lo := if a < |t| then a else |t|;
    var hi := if b < |t| then b else |t|;
    if lo < hi {
      SingleSpacedSlice(t, lo, hi);
    }
  }

  /** Stripping a single-spaced string leaves a clean one. */
  lemma {:induction false} StripSingleSpaced(s: string)
    requires SingleSpaced(s)
    ensures |Strip(s)| <= |s| && IsClean(Strip(s))
  {
    var r := Strip(s);
    StripFacts(s);
    var a := |s| - |TrimStart(s)|;
    assert r == s[a..a + |r|];
    SingleSpacedSlice(s, a, a + |r|);
  }

  /** Every chunk of a clean text, cut from windows no longer than `size`,
      is non-empty, clean and at most `size` long. */
  lemma {:induction false} ChunksOfWellFormed(t: string, size: nat, ws: seq<Window>)
    requires IsClean(t)
    requires forall i :: 0 <= i < |ws| ==> ws[i].start <= ws[i].end <= ws[i].start + size
    ensures forall c :: c in ChunksOf(t, ws) ==> c != [] && |c| <= size && IsClean(c)
  {
    var ps := Pieces(t, ws);
    NonEmptyElements(ps);
    forall c | c in ChunksOf(t, ws)
      ensures c != [] && |c| <= size && IsClean(c)
    {
      var i :| 0 <= i < |ps| && ps[i] == c;
      PieceWellFormed(t, ws[i]);
    }
  }

  /** Every emitted chunk is non-empty, has no whitespace at either end, no
      whitespace but single spaces, and is at most `chunk_size` long. */
  lemma {:induction false} ChunksWellFormed(text: string, size: nat, overlap: int)
    ensures forall c :: c in Chunk(text, size, overlap) ==> c != [] && |c| <= size && IsClean(c)
  {
    var t := Clean(text);
    CleanIsClean(text);
    if |t| > size {
      WindowsFromSteps(t, size, overlap, 0, -1);
      ChunksOfWellFormed(t, size, Windows(t, size, overlap));
    }
  }

  /** Each chunk is the stripped slice of some window. */
  lemma {:induction false} ChunksComeFromWindows(t: string, ws: seq<Window>, j: nat)
    requires j < |ChunksOf(t, ws)|
    ensures exists i :: 0 <= i < |ws| && ChunksOf(t, ws)[j] == Piece(t, ws[i])
  {
    var i := NonEmptySource(Pieces(t, ws), j);
  }

  /** With `chunk_size >= 1` the loop only stops because `start` passed the end of
      the text: the `prev_start` guard never fires, at most one window is visited per
      character, and every window is non-empty and at most `chunk_size` long. */
  lemma {:induction false} WindowsFromProgress(t: string, size: nat, overlap: int, start: nat, prevStart: int)
    requires size >= 1 && prevStart < start
    ensures var ws := WindowsFrom(t, size, overlap, start, prevStart);
      && (start < |t| <==> ws != [])
      && (ws != [] ==> ws[0].start == start)
      && (forall i :: 0 <= i < |ws| ==> ws[i].start < ws[i].end <= ws[i].start + size)
      && (forall i :: 0 <= i < |ws| - 1 ==> ws[i].start < ws[i + 1].start)
      && (ws != [] ==> NextStart(ws[|ws| - 1].start, ws[|ws| - 1].end, overlap) >= |t|)
      && |ws| <= if start < |t| then |t| - start else 0
    decreases |t| - start
  {
    if start < |t| {
      var end := WindowEnd(t, size, start);
      var next := NextStart(start, end, overlap);
      WindowsFromProgress(t, size, overlap, next, start);
      var ws := WindowsFrom(t, size, overlap, start, prevStart);
      var rest := WindowsFrom(t, size, overlap, next, start);
      assert ws == [Window(start, end)] + rest;
      assert forall i :: 1 <= i < |ws| ==> ws[i] == rest[i - 1];
      if rest != [] {
        assert ws[|ws| - 1] == rest[|rest| - 1];
      }
    }
  }

  /** The first window starts at 0 and starts strictly increase. Each next start is
      the previous end moved back by the overlap when that lands after the previous
      start, and the previous end otherwise; for a non-negative overlap it is at most
      the previous end, and the last window reaches the end of the text. */
  lemma {:induction false} WindowsOrdered(t: string, size: nat, overlap: int)
    requires size >= 1 && t != []
    ensures var ws := Windows(t, size, overlap);
      && ws != [] && ws[0].start == 0
      && (forall i :: 0 <= i < |ws| - 1 ==> ws[i].start < ws[i + 1].start)
      && (forall i :: 0 <= i < |ws| - 1 ==>
            ws[i + 1].start == if ws[i].end - overlap > ws[i].start then ws[i].end - overlap else ws[i].end)
      && (overlap >= 0 ==> forall i :: 0 <= i < |ws| - 1 ==> ws[i + 1].start <= ws[i].end)
      && (overlap >= 0 ==> ws[|ws| - 1].end >= |t|)
      && |ws| <= |t|
  {
    WindowsFromProgress(t, size, overlap, 0, -1);
    WindowsFromSteps(t, size, overlap, 0, -1);
  }

  /** Index `k` lies in one of the windows `ws`. */
  predicate Covered(ws: seq<Window>, k: nat)
  {
    exists i :: 0 <= i < |ws| && ws[i].start <= k < ws[i].end
  }

  /** The windows from `start` on cover every index from `start` to the end of the text. */
  lemma {:induction false} WindowsFromCover(t: string, size: nat, overlap: int, start: nat, prevStart: int, k: nat)
    requires size >= 1 && overlap >= 0 && prevStart < start && start <= k < |t|
    ensures Covered(WindowsFrom(t, size, overlap, start, prevStart), k)
    decreases |t| - start
  {
    var end := WindowEnd(t, size, start);
    var next := NextStart(start, end, overlap);
    var ws := WindowsFrom(t, size, overlap, start, prevStart);
    var rest := WindowsFrom(t, size, overlap, next, start);
    assert ws == [Window(start, end)] + rest;
    if k < end {
      assert ws[0].start <= k < ws[0].end;
    } else {
      WindowsFromCover(t, size, overlap, next, start, k);
      var i :| 0 <= i < |rest| && rest[i].start <= k < rest[i].end;
      assert ws[i + 1] == rest[i];
    }
  }

  /** Coverage: every index of the cleaned text lies in some window. */
  lemma {:induction false} WindowsCover(t: string, size: nat, overlap: int, k: nat)
    requires size >= 1 && overlap >= 0 && k < |t|
    ensures Covered(Windows(t, size, overlap), k)
  {
    WindowsFromCover(t, size, overlap, 0, -1, k);
  }

  /** Word-boundary snap, for every window the loop visits: a window that does not
      reach the end of the text and has a space strictly inside ends at the last such
      space; any other window is exactly `chunk_size` long before clamping. */
  lemma {:induction false} WindowsSnapToSpaces(t: string, size: nat, overlap: int, i: nat)
    requires i < |Windows(t, size, overlap)|
    ensures var w := Windows(t, size, overlap)[i];
      && (w.start + size < |t| && SpaceInside(t, size, w.start) ==>
            w.end < |t| && t[w.end] == ' ' && forall q :: w.end < q < w.start + size ==> t[q] != ' ')
      && (!(w.start + size < |t| && SpaceInside(t, size, w.start)) ==> w.end == w.start + size)
  {
    WindowsFromSteps(t, size, overlap, 0, -1);
  }

  lemma {:induction false} ZeroSizeChunksOf(t: string, overlap: int, start: nat, prevStart: int)
    ensures ChunksOf(t, WindowsFrom(t, 0, overlap, start, prevStart)) == []
    decreases |t| - start, if start == prevStart then 0 else 1
  {
    if start < |t| && start != prevStart {
      var next := NextStart(start, start, overlap);
      ZeroSizeChunksOf(t, overlap, next, start);
      ChunksFromStep(t, 0, overlap, start, prevStart);
    }
  }

  /** With `chunk_size = 0` every window is empty, so no chunk is emitted; for a
      non-negative overlap the `prev_start` guard is what ends the loop, after one window. */
  lemma {:induction false} ZeroSizeNoChunks(text: string, overlap: int)
    ensures Chunk(text, 0, overlap) == []
    ensures var t := Clean(text);
      overlap >= 0 && t != [] ==> Windows(t, 0, overlap) == [Window(0, 0)]
  {
    var t := Clean(text);
    ZeroSizeChunksOf(t, overlap, 0, -1);
    if overlap >= 0 && t != [] {
      assert WindowsFrom(t, 0, overlap, 0, 0) == [];
    }
  }

  /** With `chunk_size >= 1` there are no chunks exactly when the text is all whitespace. */
  lemma {:induction false} ChunksEmptyIff(text: string, size: nat, overlap: int)
    requires size >= 1
    ensures Chunk(text, size, overlap) == [] <==> forall i :: 0 <= i < |text| ==> IsWhitespace(text[i])
  {
    var t := Clean(text);
    CleanEmptyIff(text);
    CleanIsClean(text);
    if |t| > size {
      ChunksFromStep(t, size, overlap, 0, -1);
      var end := WindowEnd(t, size, 0);
      var s := PySlice(t, 0, end);
      assert s[0] == t[0];
      StripFacts(s);
    }
  }

  /** A cleaned text no longer than `chunk_size` is its own single chunk; an
      all-whitespace text gives no chunks. */
  lemma {:induction false} ShortTextOneChunk(text: string, size: nat, overlap: int)
    requires |Clean(text)| <= size
    ensures Clean(text) == [] ==> Chunk(text, size, overlap) == []
    ensures Clean(text) != [] ==> Chunk(text, size, overlap) == [Clean(text)]
  {
  }
}
