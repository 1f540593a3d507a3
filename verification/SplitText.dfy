/**
 splitWhatsAppText: cutting a long reply at paragraph, line or word boundaries.
 A character stands for one UTF-16 unit.
 */
module SplitText {

  const MESSAGE_CHARACTER_LIMIT: nat := 4096
  const MAX_MESSAGE_CHUNKS: nat := 8

  // The units that String.prototype.trim removes.
  predicate IsSpace(c: char) {
    c == ' ' || '\U{9}' <= c <= '\U{D}' || c == '\U{A0}' || c == '\U{1680}' || '\U{2000}' <= c <= '\U{200A}'
    || c == '\U{2028}' || c == '\U{2029}' || c == '\U{202F}' || c == '\U{205F}' || c == '\U{3000}' || c == '\U{FEFF}'
  }

  function TrimStart(s: string): (r: string)
    ensures r == "" || !IsSpace(r[0])
  {
    if s != "" && IsSpace(s[0]) then TrimStart(s[1..]) else s
  }

  function TrimEnd(s: string): (r: string)
    ensures r == "" || (!IsSpace(r[|r| - 1]) && s != "" && r[0] == s[0])
  {
    if s != "" && IsSpace(s[|s| - 1]) then TrimEnd(s[..|s| - 1]) else s
  }

  predicate Trimmed(s: string) {
    s == "" || (!IsSpace(s[0]) && !IsSpace(s[|s| - 1]))
  }

  function Trim(s: string): (r: string)
    ensures Trimmed(r)
  {
    TrimEnd(TrimStart(s))
  }

  predicate Blank(s: string) {
    forall i :: 0 <= i < |s| ==> IsSpace(s[i])
  }

  // text.lastIndexOf(pattern); -1 when absent
  function LastIndexOf(s: string, pattern: string): (i: int)
    ensures -1 <= i <= |s| - |pattern| || i == -1
    ensures i >= 0 ==> s[i..i + |pattern|] == pattern
  {
    if |s| < |pattern| then -1
    else if s[|s| - |pattern|..] == pattern then |s| - |pattern|
    else if s == "" then -1
    else LastIndexOf(s[..|s| - 1], pattern)
  }

  lemma {:induction false} TrimStartParts(s: string) returns (n: nat)
    ensures n <= |s| && TrimStart(s) == s[n..] && Blank(s[..n])
  {
    if s != "" && IsSpace(s[0]) {
      var m := TrimStartParts(s[1..]);
      n := m + 1;
      assert s[1..][m..] == s[n..] && s[..n] == [s[0]] + s[1..][..m];
    } else {
      n := 0;
    }
  }

  lemma {:induction false} TrimEndParts(s: string) returns (n: nat)
    ensures n <= |s| && TrimEnd(s) == s[..n] && Blank(s[n..])
  {
    if s != "" && IsSpace(s[|s| - 1]) {
      var m := TrimEndParts(s[..|s| - 1]);
      n := m;
      assert s[..|s| - 1][..m] == s[..m] && s[m..] == s[..|s| - 1][m..] + [s[|s| - 1]];
    } else {
      n := |s|;
    }
  }

  lemma BlankStart(s: string, n: nat)
    requires n <= |s|
    ensures Blank(s[..n]) && n > 0 ==> IsSpace(s[0])
  {
    assert n > 0 ==> s[..n][0] == s[0];
  }

  lemma BlankEnd(s: string, n: nat)
    requires n <= |s|
    ensures Blank(s[n..]) && n < |s| ==> IsSpace(s[|s| - 1])
  {
    assert n < |s| ==> s[n..][|s| - n - 1] == s[|s| - 1];
  }

  lemma TrimParts(s: string) returns (lo: nat, hi: nat)
    ensures lo <= hi <= |s| && Trim(s) == s[lo..hi] && Blank(s[..lo]) && Blank(s[hi..])
    ensures s != "" && !IsSpace(s[0]) ==> lo == 0 && hi > 0
    ensures s != "" && !IsSpace(s[|s| - 1]) ==> hi == |s|
  {
    lo := TrimStartParts(s);
    var n := TrimEndParts(s[lo..]);
    hi := lo + n;
    assert s[lo..][..n] == s[lo..hi] && s[lo..][n..] == s[hi..];
    BlankStart(s, lo);
    BlankStart(s[lo..], |s| - lo);
    BlankEnd(s, hi);
  }

  lemma TrimsAway(s: string)
    ensures Trim(s) == "" <==> Blank(s)
  {
    var lo, hi := TrimParts(s);
    assert s == s[..lo] + s[lo..hi] + s[hi..];
    assert lo < hi ==> s[lo] == Trim(s)[0];
  }

  // ---------------------------------------------------------------- what a split has to be

  // The text is the chunks in order, separated by nothing but white space.
  ghost predicate Covers(text: string, chunks: seq<string>)
    decreases |chunks|
  {
    if chunks == [] then Blank(text) else
    exists lo: nat, hi: nat :: lo <= hi <= |text| && Blank(text[..lo]) && text[lo..hi] == chunks[0] &&
        Covers(text[hi..], chunks[1..])
  }

  // Where to cut: the last paragraph break, else line break, else space in the window,
  // provided it lies in the second half; else at the limit.
  function CutAt(remaining: string, limit: nat): (cut: nat)
    requires limit >= 1 && |remaining| > limit && !IsSpace(remaining[0])
    ensures 1 <= cut <= limit && limit / 2 <= cut
  {
    var window := remaining[..limit + 1];
    var paragraph, line, word := LastIndexOf(window, "\n\n"), LastIndexOf(window, "\n"), LastIndexOf(window, " ");
    FirstIsNoBreak(remaining, limit);
    if paragraph >= limit / 2 then paragraph
    else if line >= limit / 2 then line
    else if word >= limit / 2 then word
    else limit
  }

  // A trimmed text has no break at its very beginning.
  lemma FirstIsNoBreak(remaining: string, limit: nat)
    requires |remaining| > limit && !IsSpace(remaining[0])
    ensures var window := remaining[..limit + 1];
            LastIndexOf(window, "\n\n") != 0 && LastIndexOf(window, "\n") != 0 && LastIndexOf(window, " ") != 0
  {
    StartsWithPattern(remaining[..limit + 1], "\n\n");
    StartsWithPattern(remaining[..limit + 1], "\n");
    StartsWithPattern(remaining[..limit + 1], " ");
  }

  lemma StartsWithPattern(s: string, pattern: string)
    requires pattern != ""
    ensures LastIndexOf(s, pattern) == 0 ==> s != "" && s[0] == pattern[0]
  {
    if LastIndexOf(s, pattern) == 0 {
      assert s[0] == s[0..|pattern|][0];
    }
  }

  predicate BreakAt(s: string, pattern: string, at: int) {
    0 <= at <= |s| - |pattern| && s[at..at + |pattern|] == pattern
  }

  lemma {:induction false} LastIndexIsLast(s: string, pattern: string, at: int)
    requires BreakAt(s, pattern, at)
    ensures at <= LastIndexOf(s, pattern) && BreakAt(s, pattern, LastIndexOf(s, pattern))
  {
    if s[|s| - |pattern|..] != pattern {
      assert s[..|s| - 1][at..at + |pattern|] == s[at..at + |pattern|];
      LastIndexIsLast(s[..|s| - 1], pattern, at);
    }
  }

  // A paragraph break in the second half of the window is never passed over for a finer
  // one, and the cut is made at the last break of its kind.
  lemma CutsAtLastCoarsestBreak(remaining: string, limit: nat, at: int)
    requires limit >= 1 && |remaining| > limit && !IsSpace(remaining[0]) && at >= limit / 2
    ensures var window, cut := remaining[..limit + 1], CutAt(remaining, limit);
            && (BreakAt(window, "\n\n", at) ==> at <= cut && BreakAt(window, "\n\n", cut))
            && (BreakAt(window, "\n", at) ==> BreakAt(window, "\n\n", cut) || (at <= cut && BreakAt(window, "\n", cut)))
            && (BreakAt(window, " ", at) ==>
                  BreakAt(window, "\n\n", cut) || BreakAt(window, "\n", cut) ||
                      (at <= cut && BreakAt(window, " ", cut)))
  {
    hide IsSpace, BreakAt, LastIndexOf;
    var window := remaining[..limit + 1];
    BreakIsFound(window, "\n\n", at);
    BreakIsFound(window, "\n", at);
    BreakIsFound(window, " ", at);
  }

  lemma BreakIsFound(s: string, pattern: string, at: int)
    requires pattern != ""
    ensures BreakAt(s, pattern, at) ==> at <= LastIndexOf(s, pattern)
    ensures LastIndexOf(s, pattern) >= 0 ==> BreakAt(s, pattern, LastIndexOf(s, pattern))
  {
    if BreakAt(s, pattern, at) {
      LastIndexIsLast(s, pattern, at);
    }
  }

  // One more chunk in front: the cut text is the chunk, then white space, then the rest.
  lemma CutCovers(remaining: string, cut: nat, chunks: seq<string>)
    requires Trimmed(remaining) && 1 <= cut < |remaining|
    requires Covers(Trim(remaining[cut..]), chunks)
    ensures Trim(remaining[..cut]) != ""
    ensures Covers(remaining, [Trim(remaining[..cut])] + chunks)
  {
    hide Covers, Trim, IsSpace;
    var head, tail := remaining[..cut], remaining[cut..];
    var lo, hi := TrimParts(head);
    var from, until := TrimParts(tail);
    CoversPadded(head[hi..] + tail[..from], Trim(tail), tail[until..], chunks);
    assert remaining[hi..] == (head[hi..] + tail[..from]) + Trim(tail) + tail[until..];
    assert remaining[..lo] == head[..lo] && remaining[lo..hi] == head[lo..hi];
    CoversChunk(remaining, lo, hi, chunks);
  }

  lemma CoversChunk(text: string, lo: nat, hi: nat, chunks: seq<string>)
    requires lo <= hi <= |text| && Blank(text[..lo]) && Covers(text[hi..], chunks)
    ensures Covers(text, [text[lo..hi]] + chunks)
  {
    assert ([text[lo..hi]] + chunks)[1..] == chunks;
  }

  lemma CoversFrom(text: string, lo: nat, hi: nat, chunks: seq<string>)
    requires chunks != [] && lo <= hi <= |text| && text[lo..hi] == chunks[0]
    requires Blank(text[..lo]) && Covers(text[hi..], chunks[1..])
    ensures Covers(text, chunks)
  {
  }

  lemma {:induction false} CoversPadded(before: string, text: string, after: string, chunks: seq<string>)
    requires Blank(before) && Blank(after) && Covers(text, chunks)
    ensures Covers(before + text + after, chunks)
    decreases |chunks|
  {
    if chunks == [] {
      BlankConcat(before, text);
      BlankConcat(before + text, after);
    } else {
      hide Covers, Blank;
      var lo, hi := FirstChunk(text, chunks);
      var all, n := before + text + after, |before|;
      BlankConcat(before, text[..lo]);
      CoversPadded("", text[hi..], after, chunks[1..]);
      PaddedSlices(before, text, after, lo, hi);
      CoversFrom(all, n + lo, n + hi, chunks);
    }
  }

  lemma BlankConcat(a: string, b: string)
    ensures Blank("")
    ensures Blank(a) && Blank(b) ==> Blank(a + b)
  {
  }

  lemma PaddedSlices(before: string, text: string, after: string, lo: nat, hi: nat)
    requires lo <= hi <= |text|
    ensures var all, n := before + text + after, |before|;
            all[..n + lo] == before + text[..lo] && all[n + lo..n + hi] == text[lo..hi]
            && all[n + hi..] == "" + text[hi..] + after
  {
  }

  lemma FirstChunk(text: string, chunks: seq<string>) returns (lo: nat, hi: nat)
    requires chunks != [] && Covers(text, chunks)
    ensures lo <= hi <= |text| && Blank(text[..lo]) && text[lo..hi] == chunks[0] && Covers(text[hi..], chunks[1..])
  {
    lo, hi :| lo <= hi <= |text| && Blank(text[..lo]) && text[lo..hi] == chunks[0] && Covers(text[hi..], chunks[1..]);
  }

  lemma NothingCovers()
    ensures Covers("", [])
  {
  }

  lemma WholeCovers(text: string)
    ensures Covers(text, [text])
  {
    assert text[..0] == "" && text[0..|text|] == text && text[|text|..] == "";
    assert Covers("", []);
    assert [text][1..] == [];
    var lo: nat, hi: nat := 0, |text|;
    assert Covers(text[hi..], [text][1..]);
  }

  // The specification of the loop: chunks cut off the front of a trimmed text.
  function Chunks(remaining: string, limit: nat): seq<string>
    requires limit >= 1 && Trimmed(remaining) && remaining != ""
    decreases |remaining|
  {
    if |remaining| <= limit then [remaining] else
    var cut := CutAt(remaining, limit);
    RestShrinks(remaining, cut);
    [Trim(remaining[..cut])] + Chunks(Trim(remaining[cut..]), limit)
  }

  lemma RestShrinks(remaining: string, cut: nat)
    requires Trimmed(remaining) && 1 <= cut < |remaining|
    ensures var rest := Trim(remaining[cut..]);
            Trimmed(rest) && rest != "" && |rest| <= |remaining| - cut
    ensures Trim(remaining[..cut]) != "" && |Trim(remaining[..cut])| <= cut
  {
    var lo, hi := TrimParts(remaining[cut..]);
    var from, until := TrimParts(remaining[..cut]);
    var tail := remaining[cut..];
    assert tail[|tail| - 1] == remaining[|remaining| - 1];
  }

  // Every chunk fits, none is empty, and nothing but white space is lost.
  lemma {:induction false} ChunksAreASplit(remaining: string, limit: nat)
    requires limit >= 1 && Trimmed(remaining) && remaining != ""
    ensures Covers(remaining, Chunks(remaining, limit))
    ensures forall i :: 0 <= i < |Chunks(remaining, limit)| ==> 1 <= |Chunks(remaining, limit)[i]| <= limit
    decreases |remaining|
  {
    hide Covers, LastIndexOf, Trim, IsSpace;
    if |remaining| <= limit {
      WholeCovers(remaining);
    } else {
      var cut := CutAt(remaining, limit);
      RestShrinks(remaining, cut);
      ChunksAreASplit(Trim(remaining[cut..]), limit);
      CutCovers(remaining, cut, Chunks(Trim(remaining[cut..]), limit));
    }
  }

  // Every cut removes at least half the limit.
  lemma {:induction false} ChunkCount(remaining: string, limit: nat, n: nat)
    requires limit >= 1 && Trimmed(remaining) && remaining != ""
    requires |remaining| <= limit + n * (limit / 2)
    ensures |Chunks(remaining, limit)| <= n + 1
    decreases |remaining|
  {
    hide Trim, LastIndexOf, IsSpace;
    if |remaining| > limit {
      var cut := CutAt(remaining, limit);
      RestShrinks(remaining, cut);
      OneLess(n, limit / 2);
      ChunkCount(Trim(remaining[cut..]), limit, n - 1);
    }
  }

  lemma OneLess(n: nat, half: nat)
    ensures n > 0 ==> n * half == (n - 1) * half + half
  {
  }

  // ---------------------------------------------------------------- the loop

  // The break is searched from the coarsest separator to the finest.
  method FindCut(remaining: string, limit: nat) returns (cut: nat)
    requires limit >= 1 && |remaining| > limit && !IsSpace(remaining[0])
    ensures cut == CutAt(remaining, limit)
  {
    hide LastIndexOf, IsSpace;
    var window := remaining[..limit + 1];
    var indices := [LastIndexOf(window, "\n\n"), LastIndexOf(window, "\n"), LastIndexOf(window, " ")];
    var k := 0;
    while k < |indices| && indices[k] < limit / 2
      invariant 0 <= k <= 3 && forall j :: 0 <= j < k ==> indices[j] < limit / 2
    {
      k := k + 1;
    }
    assert (k > 0 ==> indices[0] < limit / 2) && (k > 1 ==> indices[1] < limit / 2) &&
        (k > 2 ==> indices[2] < limit / 2);
    cut := if k < |indices| then indices[k] else limit;
  }

  method SplitWhatsAppText(text: string, limit: nat) returns (chunks: seq<string>)
    requires limit >= 1
    ensures Covers(Trim(text), chunks)
    ensures forall i :: 0 <= i < |chunks| ==> 1 <= |chunks[i]| <= limit
    ensures chunks == [] <==> Blank(text)
    ensures Trim(text) != "" ==> chunks == Chunks(Trim(text), limit)
  {
    hide Covers, Trim, IsSpace, LastIndexOf, Blank, TrimStart, TrimEnd, CutAt;
    var normalized := Trim(text);
    TrimsAway(text);
    if |normalized| <= limit {
      if normalized == "" {
        NothingCovers();
        return [];
      }
      WholeCovers(normalized);
      return [normalized];
    }
    chunks := [];
    var remaining := normalized;
    while |remaining| > limit
      invariant Trimmed(remaining) && remaining != ""
      invariant Chunks(normalized, limit) == chunks + Chunks(remaining, limit)
      decreases |remaining|
    {
      var cut := FindCut(remaining, limit);
      RestShrinks(remaining, cut);
      var chunk := Trim(remaining[..cut]);
      if chunk != "" {
        chunks := chunks + [chunk];
      }
      remaining := Trim(remaining[cut..]);
    }
    if remaining != "" {
      chunks := chunks + [remaining];
    }
    ChunksAreASplit(normalized, limit);
  }

  datatype SendGuard = Send(chunks: seq<string>) | TextEmpty | TextTooLong

  // The guard in sendText.
  method GuardChunks(text: string) returns (r: SendGuard)
    ensures r == TextEmpty <==> Blank(text)
    ensures |Trim(text)| <= MESSAGE_CHARACTER_LIMIT + 7 * 2048 ==> r != TextTooLong
    ensures r.Send? ==> Covers(Trim(text), r.chunks) && 1 <= |r.chunks| <= MAX_MESSAGE_CHUNKS
    ensures r.Send? ==> forall i :: 0 <= i < |r.chunks| ==> 1 <= |r.chunks[i]| <= MESSAGE_CHARACTER_LIMIT
  {
    hide Covers, Trim, Chunks, Blank;
    TrimsAway(text);
    var chunks := SplitWhatsAppText(text, MESSAGE_CHARACTER_LIMIT);
    if |chunks| == 0 {
      return TextEmpty;
    }
    if |Trim(text)| <= MESSAGE_CHARACTER_LIMIT + 7 * 2048 {
      ChunkCount(Trim(text), MESSAGE_CHARACTER_LIMIT, 7);
    }
    if |chunks| > MAX_MESSAGE_CHUNKS {
      return TextTooLong;
    }
    return Send(chunks);
  }
}
