/**
 * The newline framer of the serial reader task (src/comm_async/mod.rs).
 *
 * The reader keeps an accumulator `string_buf`; each chunk read from the
 * device is appended to it, the result is split on "\n", every segment but
 * the last is sent on as a completed line, and the last segment becomes the
 * new accumulator (an empty last segment clears it).
 *
 * Chunks are taken as already-decoded characters: the lossy UTF-8 decoding of
 * each raw read is not part of this model.
 */
module LineFramer {

  const NEWLINE: char := '\n'

  /** `s` holds no line delimiter. */
  predicate NoNewline(s: string) {
    NEWLINE !in s
  }

  /** No element of `lines` holds a line delimiter. */
  predicate AllNoNewline(lines: seq<string>) {
    forall i :: 0 <= i < |lines| ==> NoNewline(lines[i])
  }

  /** Number of line delimiters in `s`. */
  function Newlines(s: string): nat {
    multiset(s)[NEWLINE]
  }

  /** The lines, each followed by its delimiter, laid end to end. */
  function Terminated(lines: seq<string>): string {
    if lines == [] then [] else lines[0] + [NEWLINE] + Terminated(lines[1..])
  }

  /** Position of the first line delimiter in `s`. */
  function FirstNewline(s: string): (i: nat)
    requires NEWLINE in s
    ensures i < |s| && s[i] == NEWLINE
    ensures NoNewline(s[..i])
  {
    if s[0] == NEWLINE then 0
    else
      var j := FirstNewline(s[1..]);
      assert s[..j + 1] == [s[0]] + s[1..][..j];
      j + 1
  }

  /** The first delimiter is the one with no delimiter before it. */
  lemma FirstNewlineAt(s: string, k: nat)
    requires k < |s| && s[k] == NEWLINE && NoNewline(s[..k])
    ensures FirstNewline(s) == k
  {
  }

  /**
   * `str::split("\n")`: the segments between delimiters, from left to right.
   * There is always one segment more than there are delimiters, so the
   * empty string gives `[""]` and "a\n" gives `["a", ""]`.
   */
  function Split(s: string): (segments: seq<string>)
    ensures |segments| >= 1
    decreases |s|
  {
    if NEWLINE !in s then [s]
    else
      var i := FirstNewline(s);
      [s[..i]] + Split(s[i + 1..])
  }

  /** What one framing step produces: the completed lines and the new accumulator. */
  datatype Framed = Framed(lines: seq<string>, rest: string)

  /**
   * One iteration of the reader loop: append `chunk` to `acc`, split, emit all
   * segments but the last, keep the last one (cleared when it is empty).
   *
   * Framing is lossless: the emitted lines, each followed by "\n", and then
   * the new accumulator spell out exactly `acc + chunk`; no emitted line and
   * no accumulator holds a delimiter.
   */
  function FrameStep(acc: string, chunk: string): (f: Framed)
    ensures Terminated(f.lines) + f.rest == acc + chunk
    ensures AllNoNewline(f.lines) && NoNewline(f.rest)
  {
    var segments := Split(acc + chunk);
    SplitJoin(acc + chunk);
    SplitNoNewline(acc + chunk);
    var last := segments[|segments| - 1];
    Framed(segments[..|segments| - 1], if last == [] then [] else last)
  }

  /** Splitting loses nothing: the segments but the last, each terminated, then the last, are `s`. */
  lemma {:induction false} SplitJoin(s: string)
    ensures var segments := Split(s);
      Terminated(segments[..|segments| - 1]) + segments[|segments| - 1] == s
    decreases |s|
  {
    if NEWLINE in s {
      var i := FirstNewline(s);
      var head, more := s[..i], s[i + 1..];
      var tail := Split(more);
      SplitJoin(more);
      var init, last := tail[..|tail| - 1], tail[|tail| - 1];
      SplitCons(s, i, head, tail, init, last);
      Around(s, i);
      JoinCons(head, init, last, more, s);
    }
  }

  /** How the segments of `s` are made of its first line and the segments after it. */
  lemma SplitCons(s: string, i: nat, head: string, tail: seq<string>, init: seq<string>, last: string)
    requires NEWLINE in s && i == FirstNewline(s) && head == s[..i] && tail == Split(s[i + 1..])
    requires init == tail[..|tail| - 1] && last == tail[|tail| - 1]
    ensures var segments := Split(s);
      segments[..|segments| - 1] == [head] + init && segments[|segments| - 1] == last
  {
    var segments := Split(s);
    assert segments == [head] + tail;
  }

  /** Terminating one more line in front of a text built from terminated lines and a tail. */
  lemma JoinCons(head: string, init: seq<string>, last: string, more: string, s: string)
    requires Terminated(init) + last == more
    requires s == (head + [NEWLINE]) + more
    ensures Terminated([head] + init) + last == s
  {
    assert ([head] + init)[1..] == init;
    Associative(head + [NEWLINE], Terminated(init), last);
  }

  /** A text is what comes before position `i`, the character there, and what comes after. */
  lemma Around(s: string, i: nat)
    requires i < |s|
    ensures s == (s[..i] + [s[i]]) + s[i + 1..]
  {
  }

  lemma Associative(a: string, b: string, c: string)
    ensures (a + b) + c == a + (b + c)
  {
  }

  /** No segment of a split holds a delimiter. */
  lemma {:induction false} SplitNoNewline(s: string)
    ensures AllNoNewline(Split(s))
    decreases |s|
  {
    if NEWLINE in s {
      var i := FirstNewline(s);
      SplitNoNewline(s[i + 1..]);
      var segments := Split(s);
      assert segments == [s[..i]] + Split(s[i + 1..]);
      forall k | 0 <= k < |segments| ensures NoNewline(segments[k]) {
        if k > 0 {
          assert segments[k] == Split(s[i + 1..])[k - 1];
        }
      }
    }
  }

  /** Terminating a concatenation of line lists is concatenating their terminations. */
  lemma {:induction false} TerminatedAppend(a: seq<string>, b: seq<string>)
    ensures Terminated(a + b) == Terminated(a) + Terminated(b)
    decreases |a|
  {
    if a != [] {
      assert (a + b)[1..] == a[1..] + b;
      TerminatedAppend(a[1..], b);
    } else {
      assert a + b == b;
    }
  }

  /**
   * The converse of SplitJoin: text built from delimiter-free lines and a
   * delimiter-free tail splits back into exactly those lines and that tail.
   */
  lemma {:induction false} SplitTerminated(lines: seq<string>, tail: string)
    requires AllNoNewline(lines) && NoNewline(tail)
    ensures Split(Terminated(lines) + tail) == lines + [tail]
    decreases |lines|
  {
    if lines == [] {
      assert Terminated(lines) + tail == tail;
    } else {
      var more := Terminated(lines[1..]) + tail;
      TerminatedCons(lines, tail);
      SplitAfterLine(lines[0], more);
      AllNoNewlineTail(lines);
      SplitTerminated(lines[1..], tail);
      ConsSnoc(lines, tail);
    }
  }

  /** The first line, its delimiter, then the rest. */
  lemma TerminatedCons(lines: seq<string>, tail: string)
    requires lines != []
    ensures Terminated(lines) + tail == (lines[0] + [NEWLINE]) + (Terminated(lines[1..]) + tail)
  {
    Associative(lines[0] + [NEWLINE], Terminated(lines[1..]), tail);
  }

  /** A delimiter-free line and its delimiter split off as the first segment. */
  lemma SplitAfterLine(head: string, more: string)
    requires NoNewline(head)
    ensures Split((head + [NEWLINE]) + more) == [head] + Split(more)
  {
    var s := (head + [NEWLINE]) + more;
    assert s[..|head|] == head;
    assert s[|head|] == NEWLINE;
    FirstNewlineAt(s, |head|);
    assert s[|head| + 1..] == more;
  }

  /** Dropping the first line keeps the rest delimiter-free. */
  lemma AllNoNewlineTail(lines: seq<string>)
    requires lines != [] && AllNoNewline(lines)
    ensures AllNoNewline(lines[1..])
  {
    forall k | 0 <= k < |lines[1..]| ensures NoNewline(lines[1..][k]) {
      assert lines[1..][k] == lines[k + 1];
    }
  }

  lemma ConsSnoc(lines: seq<string>, tail: string)
    requires lines != []
    ensures [lines[0]] + (lines[1..] + [tail]) == lines + [tail]
  {
  }

  /** Each terminated line contributes exactly one delimiter. */
  lemma {:induction false} NewlinesTerminated(lines: seq<string>)
    requires AllNoNewline(lines)
    ensures Newlines(Terminated(lines)) == |lines|
    decreases |lines|
  {
    if lines != [] {
      AllNoNewlineTail(lines);
      NewlinesTerminated(lines[1..]);
      assert NEWLINE !in multiset(lines[0]);
      assert multiset(Terminated(lines))
        == multiset(lines[0]) + multiset([NEWLINE]) + multiset(Terminated(lines[1..]));
    }
  }

  /** A non-empty termination ends with the delimiter. */
  lemma TerminatedEndsWithNewline(lines: seq<string>)
    requires lines != []
    ensures |Terminated(lines)| > 0 && Terminated(lines)[|Terminated(lines)| - 1] == NEWLINE
    decreases |lines|
  {
    if |lines| > 1 {
      TerminatedEndsWithNewline(lines[1..]);
    }
  }

  /** One line is emitted per delimiter in the old accumulator plus the chunk. */
  lemma LinesPerNewline(acc: string, chunk: string)
    ensures |FrameStep(acc, chunk).lines| == Newlines(acc + chunk)
  {
    var f := FrameStep(acc, chunk);
    NewlinesTerminated(f.lines);
    assert multiset(acc + chunk) == multiset(Terminated(f.lines)) + multiset(f.rest);
  }

  /**
   * The new accumulator is the text after the last delimiter of
   * `acc + chunk`: a suffix free of delimiters that is either the whole text
   * or is preceded by a delimiter; in particular it is cleared when the text
   * ends with "\n".
   */
  lemma RestIsTailAfterLastNewline(acc: string, chunk: string)
    ensures var text, rest := acc + chunk, FrameStep(acc, chunk).rest;
      |rest| <= |text| && rest == text[|text| - |rest|..] && NoNewline(rest)
      && (|rest| < |text| ==> text[|text| - |rest| - 1] == NEWLINE)
      && (|text| > 0 && text[|text| - 1] == NEWLINE ==> rest == [])
  {
    var text := acc + chunk;
    var f := FrameStep(acc, chunk);
    var prefix := Terminated(f.lines);
    assert text == prefix + f.rest;
    if f.lines == [] {
      assert text == f.rest;
    } else {
      TerminatedEndsWithNewline(f.lines);
      assert text[|text| - |f.rest| - 1] == prefix[|prefix| - 1];
      if |f.rest| > 0 {
        assert text[|text| - 1] == f.rest[|f.rest| - 1];
      }
    }
  }

  /**
   * Chunking invariance: framing `a` and then `b` emits the same lines, in
   * the same order, and leaves the same accumulator as framing `a + b` at once.
   */
  lemma ChunkingInvariance(acc: string, a: string, b: string)
    ensures var first := FrameStep(acc, a);
      var second := FrameStep(first.rest, b);
      FrameStep(acc, a + b) == Framed(first.lines + second.lines, second.rest)
  {
    var first := FrameStep(acc, a);
    var second := FrameStep(first.rest, b);
    FrameTwice(acc, a, b, first.lines, first.rest, second.lines, second.rest);
  }

  /** The step of ChunkingInvariance that does not depend on how the two framings were computed. */
  lemma FrameTwice(acc: string, a: string, b: string,
                   lines1: seq<string>, rest1: string, lines2: seq<string>, rest2: string)
    requires Terminated(lines1) + rest1 == acc + a && AllNoNewline(lines1)
    requires Terminated(lines2) + rest2 == rest1 + b && AllNoNewline(lines2) && NoNewline(rest2)
    ensures FrameStep(acc, a + b) == Framed(lines1 + lines2, rest2)
  {
    var lines := lines1 + lines2;
    Rejoin(acc, a, b, lines1, rest1, lines2, rest2);
    AllNoNewlineAppend(lines1, lines2);
    FrameUnique(acc, a + b, lines, rest2);
  }

  /** Text framed in two steps, put back together. */
  lemma Rejoin(acc: string, a: string, b: string,
               lines1: seq<string>, rest1: string, lines2: seq<string>, rest2: string)
    requires Terminated(lines1) + rest1 == acc + a
    requires Terminated(lines2) + rest2 == rest1 + b
    ensures acc + (a + b) == Terminated(lines1 + lines2) + rest2
  {
    var t1, t2 := Terminated(lines1), Terminated(lines2);
    TerminatedAppend(lines1, lines2);
    Associative(acc, a, b);
    Associative(t1, rest1, b);
    Associative(t1, t2, rest2);
  }

  /** Delimiter-free lines stay delimiter-free when put together. */
  lemma AllNoNewlineAppend(a: seq<string>, b: seq<string>)
    requires AllNoNewline(a) && AllNoNewline(b)
    ensures AllNoNewline(a + b)
  {
    forall k | 0 <= k < |a + b| ensures NoNewline((a + b)[k]) {
      if k >= |a| {
        assert (a + b)[k] == b[k - |a|];
      }
    }
  }

  /**
   * Framing has exactly one outcome: any delimiter-free lines and
   * delimiter-free accumulator that spell out `acc + chunk` are the ones
   * framing gives.
   */
  lemma FrameUnique(acc: string, chunk: string, lines: seq<string>, rest: string)
    requires Terminated(lines) + rest == acc + chunk
    requires AllNoNewline(lines) && NoNewline(rest)
    ensures FrameStep(acc, chunk) == Framed(lines, rest)
  {
    SplitTerminated(lines, rest);
    var segments := Split(acc + chunk);
    assert segments[..|segments| - 1] == lines;
  }

  /** Framing nothing onto a delimiter-free accumulator changes nothing. */
  lemma FrameEmpty(acc: string)
    requires NoNewline(acc)
    ensures FrameStep(acc, []) == Framed([], acc)
  {
    SplitTerminated([], acc);
    assert acc + [] == Terminated([]) + acc;
  }

  /** Concatenation of the chunks, in order. */
  function Concat(chunks: seq<string>): string {
    if chunks == [] then [] else chunks[0] + Concat(chunks[1..])
  }

  /** Appending one more chunk to the concatenation. */
  lemma {:induction false} ConcatSnoc(chunks: seq<string>, chunk: string)
    ensures Concat(chunks + [chunk]) == Concat(chunks) + chunk
    decreases |chunks|
  {
    if chunks == [] {
      assert chunks + [chunk] == [chunk];
    } else {
      assert (chunks + [chunk])[1..] == chunks[1..] + [chunk];
      ConcatSnoc(chunks[1..], chunk);
      Associative(chunks[0], Concat(chunks[1..]), chunk);
    }
  }

  /** The concatenation of two runs of chunks is the first run's text, then the second's. */
  lemma {:induction false} ConcatAppend(a: seq<string>, b: seq<string>)
    ensures Concat(a + b) == Concat(a) + Concat(b)
    decreases |a|
  {
    if a == [] {
      assert a + b == b;
    } else {
      assert (a + b)[1..] == a[1..] + b;
      ConcatAppend(a[1..], b);
      Associative(a[0], Concat(a[1..]), Concat(b));
    }
  }

  /**
   * Framing chunk by chunk, starting from accumulator `acc`. Nothing is lost
   * over any number of reads: the lines, each terminated, then the final
   * accumulator, spell out `acc` followed by every chunk in order.
   */
  function FrameAll(acc: string, chunks: seq<string>): (r: Framed)
    ensures Terminated(r.lines) + r.rest == acc + Concat(chunks)
    ensures AllNoNewline(r.lines)
    ensures NoNewline(acc) ==> NoNewline(r.rest)
    decreases |chunks|
  {
    if chunks == [] then
      assert acc + Concat(chunks) == Terminated([]) + acc;
      Framed([], acc)
    else
      var first := FrameStep(acc, chunks[0]);
      var more := FrameAll(first.rest, chunks[1..]);
      Rejoin(acc, chunks[0], Concat(chunks[1..]), first.lines, first.rest, more.lines, more.rest);
      AllNoNewlineAppend(first.lines, more.lines);
      Framed(first.lines + more.lines, more.rest)
  }

  /**
   * Chunking invariance over any number of reads: framing the chunks one at a
   * time is framing their concatenation once.
   */
  lemma {:induction false} FrameAllIsFrameOnce(acc: string, chunks: seq<string>)
    requires NoNewline(acc)
    ensures FrameAll(acc, chunks) == FrameStep(acc, Concat(chunks))
    decreases |chunks|
  {
    if chunks == [] {
      FrameEmpty(acc);
    } else {
      var first := FrameStep(acc, chunks[0]);
      FrameAllIsFrameOnce(first.rest, chunks[1..]);
      ChunkingInvariance(acc, chunks[0], Concat(chunks[1..]));
    }
  }

  /** "ok\na" then "\n": ["ok"] with "a" kept, then ["a"] with nothing kept. */
  lemma ReassemblyExample()
    ensures FrameStep("", "ok\na") == Framed(["ok"], "a")
    ensures FrameStep("a", "\n") == Framed(["a"], "")
  {
    assert Terminated(["ok"]) == "ok\n";
    FrameUnique("", "ok\na", ["ok"], "a");
    assert Terminated(["a"]) == "a\n";
    FrameUnique("a", "\n", ["a"], "");
  }

  /** "ok\na\n" in one read: ["ok", "a"], accumulator cleared. */
  lemma SingleDeliveryExample()
    ensures FrameStep("", "ok\na\n") == Framed(["ok", "a"], "")
  {
    assert Terminated(["a"]) == "a\n";
    assert Terminated(["ok", "a"]) == "ok\na\n";
    FrameUnique("", "ok\na\n", ["ok", "a"], "");
  }
}
