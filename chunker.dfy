/**
 * The paragraph chunker of the ingestion script (`chunkText`): the document is
 * split on runs of two or more newlines and the paragraphs are packed greedily
 * into chunks of at most `max` characters, joined by a blank line.
 */
module Chunker {
  import opened Text
  import opened Seqs

  /** The default `max` of `chunkText`, the one the ingestion uses. */
  const MaxChunkLength: int := 900

  /** The separator put between two paragraphs of one buffer. */
  const Joiner: string := "\n\n"

  /** Two newlines start at index `i` of `s`. */
  predicate BreakAt(s: string, i: int) {
    0 <= i && i + 1 < |s| && s[i] == '\n' && s[i + 1] == '\n'
  }

  /** The first index at or after `i` where two newlines start, or `|s|`. */
  function FirstBreak(s: string, i: nat): (k: nat)
    requires i <= |s|
    ensures i <= k <= |s|
    ensures k < |s| ==> BreakAt(s, k)
    ensures forall j :: i <= j < k ==> !BreakAt(s, j)
    decreases |s| - i
  {
    if i == |s| then |s| else if BreakAt(s, i) then i else FirstBreak(s, i + 1)
  }

  /** The end of the run of newlines that starts at `j`. */
  function NewlineRunEnd(s: string, j: nat): (e: nat)
    requires j <= |s|
    ensures j <= e <= |s|
    ensures forall t :: j <= t < e ==> s[t] == '\n'
    ensures e == |s| || s[e] != '\n'
    decreases |s| - j
  {
    if j < |s| && s[j] == '\n' then NewlineRunEnd(s, j + 1) else j
  }

  /**
   * `s.split(/\n{2,}/)`: the text between the leftmost maximal runs of two or
   * more newlines. There is always at least one piece ("" gives [""]).
   */
  function SplitParagraphs(s: string): (ps: seq<string>)
    ensures |ps| >= 1
    ensures forall p <- ps :: forall i :: !BreakAt(p, i)
    decreases |s|
  {
    var k := FirstBreak(s, 0);
    if k == |s| then [s]
    else
      var e := NewlineRunEnd(s, k);
      var first := s[..k];
      assert forall i :: !BreakAt(first, i) by {
        forall i | BreakAt(first, i) ensures false {
          assert BreakAt(s, i);
        }
      }
      [first] + SplitParagraphs(s[e..])
  }

  /** The concatenation of a sequence of sequences, in order. */
  function Flatten<T>(xss: seq<seq<T>>): seq<T> {
    if xss == [] then [] else Flatten(xss[..|xss| - 1]) + xss[|xss| - 1]
  }

  /** The non-whitespace characters of `s`, in order. */
  function Visible(s: string): string {
    if s == "" then "" else Visible(s[..|s| - 1]) + (if IsSpace(s[|s| - 1]) then "" else [s[|s| - 1]])
  }

  // ---------------------------------------------------------------------------
  // The packing loop

  /** The loop state of `chunkText`: the chunks emitted so far and the buffer. */
  datatype Packing = Packing(out: seq<string>, buf: string)

  /** One iteration of the loop of `chunkText` on paragraph `para`. */
  function Pack(st: Packing, para: string, max: int): Packing {
    if |st.buf + Joiner + para| > max then
      Packing(if st.buf != "" then st.out + [Trim(st.buf)] else st.out, para)
    else
      Packing(st.out, if st.buf != "" then st.buf + Joiner + para else para)
  }

  /** The loop state after packing all of `paras`, in order. */
  function PackAll(paras: seq<string>, max: int): Packing {
    if paras == [] then Packing([], "")
    else Pack(PackAll(paras[..|paras| - 1], max), paras[|paras| - 1], max)
  }

  /** The final flush: the trimmed buffer is emitted when it is not blank. */
  function Flush(st: Packing): seq<string> {
    if Trim(st.buf) != "" then st.out + [Trim(st.buf)] else st.out
  }

  /** The chunks `chunkText(txt, max)` returns. */
  function Chunks(txt: string, max: int): seq<string> {
    Flush(PackAll(SplitParagraphs(txt), max))
  }

  /** `chunkText(txt, max)`. */
  method ChunkText(txt: string, max: int) returns (out: seq<string>)
    ensures out == Chunks(txt, max)
  {
    var paras := SplitParagraphs(txt);
    out := [];
    var buf := "";
    for i := 0 to |paras|
      invariant Packing(out, buf) == PackAll(paras[..i], max)
    {
      PackAllStep(paras, i, max);
      var para := paras[i];
      if |buf + "\n\n" + para| > max {
        if buf != "" {
          out := out + [Trim(buf)];
        }
        buf := para;
      } else {
        buf := if buf != "" then buf + "\n\n" + para else para;
      }
    }
    PackAllWhole(paras, max);
    if Trim(buf) != "" {
      out := out + [Trim(buf)];
    }
  }

  /** One turn of the loop packs one more paragraph. */
  lemma PackAllStep(paras: seq<string>, i: nat, max: int)
    requires i < |paras|
    ensures PackAll(paras[..i + 1], max) == Pack(PackAll(paras[..i], max), paras[i], max)
  {
    assert paras[..i + 1][..i] == paras[..i];
  }

  lemma PackAllWhole(paras: seq<string>, max: int)
    ensures PackAll(paras[..|paras|], max) == PackAll(paras, max)
  {
    assert paras[..|paras|] == paras;
  }

  // ---------------------------------------------------------------------------
  // Every chunk is trimmed

  lemma {:induction false} PackAllTrimmed(paras: seq<string>, max: int)
    ensures forall c <- PackAll(paras, max).out :: IsTrimmed(c)
  {
    if paras != [] {
      var init := paras[..|paras| - 1];
      PackAllTrimmed(init, max);
      PackTrimmed(PackAll(init, max), paras[|paras| - 1], max);
    }
  }

  lemma PackTrimmed(st: Packing, para: string, max: int)
    requires forall c <- st.out :: IsTrimmed(c)
    ensures forall c <- Pack(st, para, max).out :: IsTrimmed(c)
  {
    if |st.buf + Joiner + para| > max && st.buf != "" {
      assert Pack(st, para, max).out == st.out + [Trim(st.buf)];
      TrimmedSnoc(st.out, Trim(st.buf));
    }
  }

  /**
   * Every chunk has no whitespace at either end, so it is its own trim (it may
   * still be "", see EmptyChunkAfterBlankParagraph).
   */
  lemma ChunksTrimmed(txt: string, max: int)
    ensures forall c <- Chunks(txt, max) :: IsTrimmed(c) && Trim(c) == c
  {
    var st := PackAll(SplitParagraphs(txt), max);
    PackAllTrimmed(SplitParagraphs(txt), max);
    FlushTrimmed(st);
    forall c <- Chunks(txt, max) ensures IsTrimmed(c) && Trim(c) == c {
      TrimOfTrimmed(c);
    }
  }

  lemma FlushTrimmed(st: Packing)
    requires forall c <- st.out :: IsTrimmed(c)
    ensures forall c <- Flush(st) :: IsTrimmed(c)
  {
    if Trim(st.buf) != "" {
      TrimmedSnoc(st.out, Trim(st.buf));
    }
  }

  lemma TrimmedSnoc(out: seq<string>, last: string)
    requires forall c <- out :: IsTrimmed(c)
    requires IsTrimmed(last)
    ensures forall c <- out + [last] :: IsTrimmed(c)
  {
    forall c <- out + [last] ensures IsTrimmed(c) {
      if c !in out {
        assert c == last;
      }
    }
  }

  /** Empty input yields no chunk. */
  lemma EmptyTextNoChunks(max: int)
    ensures Chunks("", max) == []
  {
    assert SplitParagraphs("") == [""];
    assert PackAll([""], max).buf == "";
  }

  /** A paragraph without a newline is split into itself. */
  lemma SplitSingleLine(p: string)
    requires forall i :: 0 <= i < |p| ==> p[i] != '\n'
    ensures SplitParagraphs(p) == [p]
  {
  }

  /**
   * The mid-loop flush tests the untrimmed buffer: a blank paragraph followed by
   * one that does not fit beside it is emitted as an empty chunk.
   */
  lemma EmptyChunkAfterBlankParagraph(p: string, max: int)
    requires forall i :: 0 <= i < |p| ==> p[i] != '\n'
    requires Trim(p) != ""
    requires 3 <= max < |p| + 3
    ensures Chunks(" \n\n" + p, max) == ["", Trim(p)]
  {
    SplitBlankThenLine(p);
    PackBlankThen(p, max);
  }

  /** The packing behind EmptyChunkAfterBlankParagraph, on the two paragraphs. */
  lemma PackBlankThen(p: string, max: int)
    requires Trim(p) != ""
    requires 3 <= max < |p| + 3
    ensures Flush(PackAll([" ", p], max)) == ["", Trim(p)]
  {
    PackAllTwo(" ", p, max);
    PackBlankFirst(max);
    PackAfterBlank(p, max);
  }

  /** A blank paragraph fits into the empty buffer. */
  lemma PackBlankFirst(max: int)
    requires 3 <= max
    ensures Pack(Packing([], ""), " ", max) == Packing([], " ")
  {
    assert |"" + Joiner + " "| == 3;
  }

  /** A paragraph that does not fit beside the blank buffer flushes it as "". */
  lemma PackAfterBlank(p: string, max: int)
    requires max < |p| + 3
    ensures Pack(Packing([], " "), p, max) == Packing([""], p)
  {
    BlankTrimsToEmpty();
    assert |" " + Joiner + p| == |p| + 3;
  }

  lemma BlankTrimsToEmpty()
    ensures Trim(" ") == ""
  {
    TrimEmptyIff(" ");
  }



  /** Packing two paragraphs is packing the first, then the second. */
  lemma PackAllTwo(a: string, b: string, max: int)
    ensures PackAll([a, b], max) == Pack(Pack(Packing([], ""), a, max), b, max)
  {
    PackAllStep([a, b], 1, max);
    assert [a, b][..2] == [a, b] && [a, b][..1] == [a];
    PackAllStep([a], 0, max);
    assert [a][..1] == [a] && [a][..0] == [];
  }



  /** A blank first line, a paragraph break, then a single line. */
  lemma SplitBlankThenLine(p: string)
    requires forall i :: 0 <= i < |p| ==> p[i] != '\n'
    requires p != ""
    ensures SplitParagraphs(" \n\n" + p) == [" ", p]
  {
    var s := " \n\n" + p;
    assert SplitParagraphs(s) == [" "] + SplitParagraphs(p) by {
      BlankLineBreak(p);
      BlankLineRunEnd(p);
      SplitAtBreak(s);
      assert s[3..] == p && s[..1] == " ";
    }
    SplitSingleLine(p);
  }

  /** One unfolding of SplitParagraphs at its first break. */
  lemma SplitAtBreak(s: string)
    requires FirstBreak(s, 0) < |s|
    ensures var k := FirstBreak(s, 0);
      SplitParagraphs(s) == [s[..k]] + SplitParagraphs(s[NewlineRunEnd(s, k)..])
  {
  }

  lemma BlankLineBreak(p: string)
    ensures FirstBreak(" \n\n" + p, 0) == 1
  {
    var s := " \n\n" + p;
    assert BreakAt(s, 1) && !BreakAt(s, 0);
  }

  lemma BlankLineRunEnd(p: string)
    requires p != "" && p[0] != '\n'
    ensures NewlineRunEnd(" \n\n" + p, 1) == 3
  {
    var s := " \n\n" + p;
    assert s[3] == p[0];
    assert NewlineRunEnd(s, 3) == 3;
  }

  // ---------------------------------------------------------------------------
  // Oversized chunks

  lemma {:induction false} PackAllOversized(paras: seq<string>, max: int)
    ensures var st := PackAll(paras, max);
      && (forall c <- st.out :: |c| > max ==> exists p <- paras :: c == Trim(p))
      && (paras != [] && |st.buf| > max ==> st.buf in paras)
  {
    if paras != [] {
      var init := paras[..|paras| - 1];
      PackAllOversized(init, max);
      var st := PackAll(init, max);
      var para := paras[|paras| - 1];
      assert para in paras;
      assert forall p <- init :: p in paras;
      var st' := Pack(st, para, max);
      assert st' == PackAll(paras, max);
      if |st.buf + Joiner + para| > max {
        assert st'.buf == para;
        if st.buf != "" {
          assert st'.out == st.out + [Trim(st.buf)];
          assert |Trim(st.buf)| > max ==> |st.buf| > max;
        }
      } else {
        assert |st'.buf| <= max;
      }
    }
  }

  /**
   * The buffer only grows while the joined text fits in `max`: a chunk longer
   * than `max` is a single paragraph of the text, trimmed.
   */
  lemma OversizedChunkIsOneParagraph(txt: string, max: int)
    ensures forall c <- Chunks(txt, max) ::
              |c| > max ==> exists p <- SplitParagraphs(txt) :: c == Trim(p)
  {
    var paras := SplitParagraphs(txt);
    PackAllOversized(paras, max);
    FlushOversized(PackAll(paras, max), paras, max);
  }

  /** The final flush emits an oversized chunk only for a buffer that is one paragraph. */
  lemma FlushOversized(st: Packing, paras: seq<string>, max: int)
    requires paras != []
    requires forall c <- st.out :: |c| > max ==> exists p <- paras :: c == Trim(p)
    requires |st.buf| > max ==> st.buf in paras
    ensures forall c <- Flush(st) :: |c| > max ==> exists p <- paras :: c == Trim(p)
  {
    if Trim(st.buf) != "" {
      assert Flush(st) == st.out + [Trim(st.buf)];
    }
  }

  // ---------------------------------------------------------------------------
  // No text is lost or duplicated

  lemma {:induction false} VisibleAppend(a: string, b: string)
    ensures Visible(a + b) == Visible(a) + Visible(b)
    decreases |b|
  {
    if b != "" {
      assert (a + b)[..|a + b| - 1] == a + b[..|b| - 1];
      VisibleAppend(a, b[..|b| - 1]);
    } else {
      assert a + b == a;
    }
  }

  lemma {:induction false} VisibleAllSpace(s: string)
    requires AllSpace(s)
    ensures Visible(s) == ""
    decreases |s|
  {
    if s != "" {
      VisibleAllSpace(s[..|s| - 1]);
    }
  }

  /** Trimming removes only whitespace. */
  lemma VisibleTrim(s: string)
    ensures Visible(Trim(s)) == Visible(s)
  {
    var r := Trim(s);
    var k := TrimSlice(s);
    var j := k + |r|;
    SplitTwice(s, k, j);
    VisibleAppend(s[..j], s[j..]);
    VisibleAllSpace(s[j..]);
    VisibleAppend(s[..k], r);
    VisibleAllSpace(s[..k]);
  }

  lemma VisibleJoined(a: string, b: string)
    ensures Visible(a + Joiner + b) == Visible(a) + Visible(b)
  {
    VisibleAppend(a + Joiner, b);
    VisibleAppend(a, Joiner);
    JoinerInvisible();
    AppendNil(Visible(a), Visible(a + Joiner));
  }

  lemma JoinerInvisible()
    ensures Visible(Joiner) == ""
  {
    VisibleAllSpace(Joiner);
  }

  lemma FlattenAppend(xss: seq<string>, x: string)
    ensures Flatten(xss + [x]) == Flatten(xss) + x
  {
    assert (xss + [x])[..|xss|] == xss;
  }

  lemma VisibleWithoutGap(s: string, k: nat, e: nat)
    requires k <= e <= |s|
    requires AllSpace(s[k..e])
    ensures Visible(s) == Visible(s[..k]) + Visible(s[e..])
  {
    var a, m, b := s[..k], s[k..e], s[e..];
    SplitTwice(s, k, e);
    VisibleAllSpace(m);
    VisibleAppend(a, m);
    assert Visible(a + m) == Visible(a) by {
      assert Visible(a) + "" == Visible(a);
    }
    VisibleAppend(a + m, b);
  }

  /** A run of two or more newlines, the separator the split matches. */
  predicate IsBreakRun(sep: string) {
    |sep| >= 2 && forall c <- sep :: c == '\n'
  }

  /**
   * `s` is the pieces `ps` with the separators `seps` put back between them;
   * each separator is a run of two or more newlines and is maximal: the piece
   * before it does not end with a newline, the piece after does not start
   * with one.
   */
  ghost predicate Rejoins(ps: seq<string>, seps: seq<string>, s: string) {
    && |seps| + 1 == |ps|
    && (forall sep <- seps :: IsBreakRun(sep))
    && Interleave(ps, seps) == s
    && (forall i :: 0 <= i < |seps| ==> ps[i] == "" || ps[i][|ps[i]| - 1] != '\n')
    && (forall i :: 1 <= i < |ps| ==> ps[i] == "" || ps[i][0] != '\n')
  }

  /** The split round trip: the newline runs the split matched, put back, give the text again. */
  lemma {:induction false} SplitRoundTrip(s: string) returns (seps: seq<string>)
    ensures Rejoins(SplitParagraphs(s), seps, s)
    decreases |s|
  {
    var k := FirstBreak(s, 0);
    if k == |s| {
      assert SplitParagraphs(s) == [s];
      seps := [];
    } else {
      var e := NewlineRunEnd(s, k);
      var more := SplitRoundTrip(s[e..]);
      seps := [s[k..e]] + more;
      SplitAtBreak(s);
      BreakRunAt(s, k);
      SplitFirstPiece(s[e..]);
      RejoinCons(s[..k], s[k..e], SplitParagraphs(s[e..]), more, s[e..]);
      assert s[..k] + s[k..e] + s[e..] == s;
    }
  }

  /** One more piece and separator in front keep the round-trip facts. */
  lemma RejoinCons(p: string, sep: string, ps: seq<string>, seps: seq<string>, t: string)
    requires Rejoins(ps, seps, t)
    requires IsBreakRun(sep) && (p == "" || p[|p| - 1] != '\n') && (ps[0] == "" || ps[0][0] != '\n')
    ensures Rejoins([p] + ps, [sep] + seps, p + sep + t)
  {
    InterleaveCons(p, sep, ps, seps);
    var ps' := [p] + ps;
    assert forall i :: 1 <= i < |ps'| ==> ps'[i] == ps[i - 1];
  }

  /** At a first break the text before does not end with a newline, the run after is a separator, and what follows it does not start with one. */
  lemma BreakRunAt(s: string, k: nat)
    requires k == FirstBreak(s, 0) < |s|
    ensures IsBreakRun(s[k..NewlineRunEnd(s, k)])
    ensures s[..k] == "" || s[..k][k - 1] != '\n'
    ensures var e := NewlineRunEnd(s, k); s[e..] == "" || s[e..][0] != '\n'
  {
    assert NewlineRunEnd(s, k) == NewlineRunEnd(s, k + 2);
    assert k > 0 ==> !BreakAt(s, k - 1);
  }

  /** The first piece of a split is the text up to its first break. */
  lemma SplitFirstPiece(s: string)
    ensures SplitParagraphs(s)[0] == s[..FirstBreak(s, 0)]
    ensures s == "" || s[0] != '\n' ==> SplitParagraphs(s)[0] == "" || SplitParagraphs(s)[0][0] != '\n'
  {
  }

  /** Splitting drops only the newline runs between paragraphs. */
  lemma {:induction false} SplitKeepsVisible(s: string)
    ensures Visible(Flatten(SplitParagraphs(s))) == Visible(s)
    decreases |s|
  {
    var ps := SplitParagraphs(s);
    var k := FirstBreak(s, 0);
    if k == |s| {
      assert ps == [s];
      assert [s][..0] == [];
      assert Flatten([s]) == s;
    } else {
      var e := NewlineRunEnd(s, k);
      var rest := SplitParagraphs(s[e..]);
      assert ps == [s[..k]] + rest;
      SplitKeepsVisible(s[e..]);
      FlattenPrepend(s[..k], rest);
      VisibleAppend(s[..k], Flatten(rest));
      VisibleWithoutGap(s, k, e);
    }
  }

  lemma {:induction false} FlattenPrepend(x: string, xss: seq<string>)
    ensures Flatten([x] + xss) == x + Flatten(xss)
    decreases |xss|
  {
    if xss == [] {
      assert [x] + xss == [x];
      assert [x][..0] == [];
    } else {
      var init := xss[..|xss| - 1];
      FlattenPrepend(x, init);
      assert ([x] + xss)[..|xss|] == [x] + init;
    }
  }

  lemma PackVisible(st: Packing, para: string, max: int)
    ensures var st' := Pack(st, para, max);
      Visible(Flatten(st'.out)) + Visible(st'.buf) == Visible(Flatten(st.out)) + Visible(st.buf) + Visible(para)
  {
    if |st.buf + Joiner + para| > max {
      if st.buf != "" {
        var t := Trim(st.buf);
        assert Pack(st, para, max) == Packing(st.out + [t], para);
        FlattenAppend(st.out, t);
        VisibleAppend(Flatten(st.out), t);
        VisibleTrim(st.buf);
      }
    } else if st.buf != "" {
      VisibleJoined(st.buf, para);
    }
  }

  lemma {:induction false} PackAllVisible(paras: seq<string>, max: int)
    ensures var st := PackAll(paras, max);
      Visible(Flatten(st.out)) + Visible(st.buf) == Visible(Flatten(paras))
  {
    if paras != [] {
      var init := paras[..|paras| - 1];
      var para := paras[|paras| - 1];
      PackAllVisible(init, max);
      PackVisible(PackAll(init, max), para, max);
      assert paras == init + [para];
      FlattenAppend(init, para);
      VisibleAppend(Flatten(init), para);
    }
  }

  /**
   * No text is lost or duplicated: the chunks, concatenated, hold exactly the
   * non-whitespace characters of the input, in order.
   */
  lemma ChunksKeepVisibleText(txt: string, max: int)
    ensures Visible(Flatten(Chunks(txt, max))) == Visible(txt)
  {
    var paras := SplitParagraphs(txt);
    var st := PackAll(paras, max);
    PackAllVisible(paras, max);
    SplitKeepsVisible(txt);
    if Trim(st.buf) != "" {
      FlattenAppend(st.out, Trim(st.buf));
      VisibleAppend(Flatten(st.out), Trim(st.buf));
      VisibleTrim(st.buf);
    } else {
      TrimEmptyIff(st.buf);
      VisibleAllSpace(st.buf);
    }
  }

  // ---------------------------------------------------------------------------
  // Every paragraph lands in exactly one chunk, in reading order

  /** The buffer text the loop builds from the paragraphs `g`, one after another. */
  function BufferOf(g: seq<string>): string {
    if g == [] then ""
    else
      var b := BufferOf(g[..|g| - 1]);
      if b != "" then b + Joiner + g[|g| - 1] else g[|g| - 1]
  }

  /** `g` without its leading empty paragraphs. */
  function DropLeadingEmpty(g: seq<string>): (d: seq<string>)
    ensures d == [] || d[0] != ""
  {
    if g != [] && g[0] == "" then DropLeadingEmpty(g[1..]) else g
  }

  lemma {:induction false} DropLeadingEmptyAppend(g: seq<string>, p: string)
    ensures DropLeadingEmpty(g + [p]) ==
              if DropLeadingEmpty(g) == [] then (if p == "" then [] else [p]) else DropLeadingEmpty(g) + [p]
    decreases |g|
  {
    if g != [] && g[0] == "" {
      assert (g + [p])[1..] == g[1..] + [p];
      DropLeadingEmptyAppend(g[1..], p);
    } else if g == [] {
      assert g + [p] == [p];
      assert [p][1..] == [];
    }
  }

  lemma JoinStartsWithFirst(xs: seq<string>, sep: string)
    requires xs != [] && xs[0] != ""
    ensures Join(xs, sep) != ""
    decreases |xs|
  {
    if |xs| > 1 {
      JoinStartsWithFirst(xs[..|xs| - 1], sep);
    }
  }

  /** The buffer is the group's paragraphs joined by blank lines, leading empty ones dropped. */
  lemma {:induction false} BufferIsJoin(g: seq<string>)
    ensures BufferOf(g) == Join(DropLeadingEmpty(g), Joiner)
    decreases |g|
  {
    if g != [] {
      var init := g[..|g| - 1];
      var p := g[|g| - 1];
      assert g == init + [p];
      BufferIsJoin(init);
      DropLeadingEmptyAppend(init, p);
      var d := DropLeadingEmpty(init);
      if d != [] {
        JoinStartsWithFirst(d, Joiner);
        assert (d + [p])[..|d|] == d;
      }
    }
  }

  /**
   * The paragraphs as the loop groups them: the groups already flushed (or
   * dropped because their buffer was "") and the group still in the buffer.
   */
  ghost function Grouping(paras: seq<string>, max: int): (seq<seq<string>>, seq<string>) {
    if paras == [] then ([], [])
    else
      var (closed, cur) := Grouping(paras[..|paras| - 1], max);
      var para := paras[|paras| - 1];
      if |BufferOf(cur) + Joiner + para| > max then (closed + [cur], [para])
      else (closed, cur + [para])
  }

  /** The chunks flushed for closed groups: one per group whose buffer is not "". */
  function EmitClosed(closed: seq<seq<string>>): seq<string> {
    if closed == [] then []
    else
      var b := BufferOf(closed[|closed| - 1]);
      EmitClosed(closed[..|closed| - 1]) + (if b != "" then [Trim(b)] else [])
  }

  /** The chunk of the final flush, if any. */
  function EmitLast(g: seq<string>): seq<string> {
    if Trim(BufferOf(g)) != "" then [Trim(BufferOf(g))] else []
  }

  lemma {:induction false} PackAllGrouping(paras: seq<string>, max: int)
    ensures var (closed, cur) := Grouping(paras, max);
      && PackAll(paras, max) == Packing(EmitClosed(closed), BufferOf(cur))
      && Flatten(closed + [cur]) == paras
  {
    if paras != [] {
      var init := paras[..|paras| - 1];
      var para := paras[|paras| - 1];
      assert paras == init + [para];
      PackAllGrouping(init, max);
      var (closed, cur) := Grouping(init, max);
      FlattenAppend2(closed, cur);
      if |BufferOf(cur) + Joiner + para| > max {
        var closed' := closed + [cur];
        assert closed'[..|closed'| - 1] == closed;
        FlattenAppend2(closed', [para]);
      } else {
        var cur' := cur + [para];
        FlattenAppend2(closed, cur');
        assert cur'[..|cur'| - 1] == cur;
      }
    }
  }

  /** Each group but the first starts with a paragraph that did not fit beside the group before it. */
  ghost predicate ClosedOnOverflow(gs: seq<seq<string>>, max: int) {
    forall i :: 0 <= i < |gs| - 1 ==> Overflows(gs[i], gs[i + 1], max)
  }

  /** Group `h` is not empty and its first paragraph does not fit beside group `g`. */
  ghost predicate Overflows(g: seq<string>, h: seq<string>, max: int) {
    h != [] && |BufferOf(g) + Joiner + h[0]| > max
  }

  /** A new group opened on overflow keeps the groups closed on overflow. */
  lemma OverflowAppend(gs: seq<seq<string>>, g: seq<string>, max: int)
    requires ClosedOnOverflow(gs, max) && gs != [] && Overflows(gs[|gs| - 1], g, max)
    ensures ClosedOnOverflow(gs + [g], max)
  {
    var gs' := gs + [g];
    forall i | 0 <= i < |gs'| - 1 ensures Overflows(gs'[i], gs'[i + 1], max) {
      if i < |gs| - 1 {
        assert gs'[i] == gs[i] && gs'[i + 1] == gs[i + 1];
      }
    }
  }

  /** A paragraph added to the last group keeps the groups closed on overflow. */
  lemma OverflowExtendLast(closed: seq<seq<string>>, cur: seq<string>, para: string, max: int)
    requires ClosedOnOverflow(closed + [cur], max) && (closed != [] ==> cur != [])
    ensures ClosedOnOverflow(closed + [cur + [para]], max)
  {
    var gs, gs' := closed + [cur], closed + [cur + [para]];
    forall i | 0 <= i < |gs'| - 1 ensures Overflows(gs'[i], gs'[i + 1], max) {
      assert gs'[i] == gs[i];
      if i + 1 < |closed| {
        assert gs'[i + 1] == gs[i + 1];
      } else {
        assert gs[i + 1] == cur && gs'[i + 1] == cur + [para];
        assert (cur + [para])[0] == cur[0];
      }
    }
  }

  /** A group of two or more paragraphs fits in `max`. */
  ghost predicate GroupsFit(gs: seq<seq<string>>, max: int) {
    forall g <- gs :: |g| >= 2 ==> |BufferOf(g)| <= max
  }

  lemma {:induction false} GroupingGreedy(paras: seq<string>, max: int)
    ensures var (closed, cur) := Grouping(paras, max);
      && ClosedOnOverflow(closed + [cur], max)
      && (paras != [] ==> cur != [])
      && (closed != [] ==> cur != [])
  {
    if paras != [] {
      var init := paras[..|paras| - 1];
      var para := paras[|paras| - 1];
      GroupingGreedy(init, max);
      var (closed, cur) := Grouping(init, max);
      if |BufferOf(cur) + Joiner + para| > max {
        OverflowAppend(closed + [cur], [para], max);
        assert closed + [cur] + [[para]] == (closed + [cur]) + [[para]];
      } else {
        OverflowExtendLast(closed, cur, para, max);
      }
    }
  }

  lemma {:induction false} GroupingFits(paras: seq<string>, max: int)
    ensures var (closed, cur) := Grouping(paras, max);
      GroupsFit(closed + [cur], max)
  {
    if paras != [] {
      var init := paras[..|paras| - 1];
      var para := paras[|paras| - 1];
      GroupingFits(init, max);
      var (closed, cur) := Grouping(init, max);
      if |BufferOf(cur) + Joiner + para| <= max {
        var cur' := cur + [para];
        assert cur'[..|cur'| - 1] == cur;
        assert |BufferOf(cur')| <= max;
        assert forall g <- closed + [cur'] :: g in closed + [cur] || g == cur';
      } else {
        assert forall g <- closed + [cur] + [[para]] :: g in closed + [cur] || g == [para];
      }
    }
  }

  lemma FlattenAppend2<T>(xss: seq<seq<T>>, x: seq<T>)
    ensures Flatten(xss + [x]) == Flatten(xss) + x
  {
    assert (xss + [x])[..|xss|] == xss;
  }

  /** The groups of paragraphs that become the chunks of `txt`, in order. */
  ghost function Groups(txt: string, max: int): seq<seq<string>> {
    var (closed, cur) := Grouping(SplitParagraphs(txt), max);
    closed + [cur]
  }

  /**
   * The paragraphs are partitioned, in reading order, into groups; each group
   * gives at most one chunk, its paragraphs joined by blank lines and trimmed;
   * a group is closed only when the next paragraph does not fit beside it, and
   * a group of two or more paragraphs never exceeds `max`.
   */
  lemma ChunksAreGroups(txt: string, max: int)
    ensures var gs := Groups(txt, max);
      && |gs| >= 1
      && Flatten(gs) == SplitParagraphs(txt)
      && Chunks(txt, max) == EmitClosed(gs[..|gs| - 1]) + EmitLast(gs[|gs| - 1])
      && (forall g <- gs :: BufferOf(g) == Join(DropLeadingEmpty(g), Joiner))
      && ClosedOnOverflow(gs, max)
      && GroupsFit(gs, max)
  {
    GroupsPartitionParagraphs(txt, max);
    GroupsJoinParagraphs(txt, max);
    GroupsAreGreedy(txt, max);
  }

  lemma GroupsPartitionParagraphs(txt: string, max: int)
    ensures var gs := Groups(txt, max);
      && |gs| >= 1
      && Flatten(gs) == SplitParagraphs(txt)
      && Chunks(txt, max) == EmitClosed(gs[..|gs| - 1]) + EmitLast(gs[|gs| - 1])
  {
    var paras := SplitParagraphs(txt);
    PackAllGrouping(paras, max);
    var g := Grouping(paras, max);
    LastGroup(g.0, g.1);
    FlushGroups(PackAll(paras, max), g.0, g.1);
  }

  lemma LastGroup(closed: seq<seq<string>>, cur: seq<string>)
    ensures var gs := closed + [cur]; gs[..|gs| - 1] == closed && gs[|gs| - 1] == cur
  {
  }

  /** The final flush emits the last group. */
  lemma FlushGroups(st: Packing, closed: seq<seq<string>>, cur: seq<string>)
    requires st == Packing(EmitClosed(closed), BufferOf(cur))
    ensures Flush(st) == EmitClosed(closed) + EmitLast(cur)
  {
    if Trim(BufferOf(cur)) == "" {
      assert EmitClosed(closed) + [] == EmitClosed(closed);
    }
  }


  lemma GroupsJoinParagraphs(txt: string, max: int)
    ensures forall g <- Groups(txt, max) :: BufferOf(g) == Join(DropLeadingEmpty(g), Joiner)
  {
    forall g <- Groups(txt, max) ensures BufferOf(g) == Join(DropLeadingEmpty(g), Joiner) {
      BufferIsJoin(g);
    }
  }

  lemma GroupsAreGreedy(txt: string, max: int)
    ensures ClosedOnOverflow(Groups(txt, max), max) && GroupsFit(Groups(txt, max), max)
  {
    GroupingGreedy(SplitParagraphs(txt), max);
    GroupingFits(SplitParagraphs(txt), max);
  }

}
