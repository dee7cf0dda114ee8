/** Parsing what section 5.1.1 of RFC 2046 prescribes to write gives the parts back. */
module MultipartRoundTrip {
  import opened Lines
  import opened Sequences
  import opened MultipartParts
  import opened MultipartParsing
  import opened MultipartReference
  import opened Wrappers

  datatype FormPart = FormPart(headers: seq<Header>, body: bytes)

  function HeaderText(h: Header): bytes {
    h.0 + (": " + h.1)
  }

  function HeaderBlock(hs: seq<Header>, more: bytes): bytes {
    if hs == [] then CRLF + more else HeaderText(hs[0]) + (CRLF + HeaderBlock(hs[1..], more))
  }

  /** The delimiter lines, the parts between them, and whatever follows the last one. */
  function Message(parts: seq<FormPart>, c: Config, epilogue: bytes): bytes {
    if parts == [] then c.Terminator() + (CRLF + epilogue)
    else c.Separator() + (CRLF + HeaderBlock(parts[0].headers,
                                             parts[0].body + CRLF + Message(parts[1..], c, epilogue)))
  }

  // ----- what can be serialised

  predicate NoBreak(s: bytes) {
    '\r' !in s && '\n' !in s
  }

  predicate GoodHeader(h: Header, c: Config) {
    && NoBreak(h.0) && ':' !in h.0 && Strip(h.0) == h.0
    && NoBreak(h.1) && Strip(h.1) == h.1
    && |HeaderText(h)| + 2 <= c.limits.bufferSize
    && !IsBoundary(HeaderText(h), c)
  }

  predicate NoBoundaryIn(ls: seq<bytes>, c: Config) {
    ls == [] || (!IsBoundary(Text(ls[0]), c) && NoBoundaryIn(ls[1..], c))
  }

  /** Headers on one line each that name a disposition, a declared length that is respected,
      and no line of the body that is a boundary. */
  predicate GoodPart(p: FormPart, c: Config) {
    && (forall h <- p.headers :: GoodHeader(h, c))
    && FinishHeader(p.headers, c.limits).Success?
    && NoBoundaryIn(SplitLines(p.body), c)
  }

  predicate AllGood(parts: seq<FormPart>, c: Config) {
    parts == [] || (GoodPart(parts[0], c) && AllGood(parts[1..], c))
  }

  /** The part that the parser should yield. */
  function Expected(p: FormPart, c: Config): PartState
    requires FinishHeader(p.headers, c.limits).Success?
  {
    PartState(p.headers, Some(Body(p.body, CRLF, |p.body| > c.limits.memfileLimit,
                                   DeclaredLength(p.headers, c.limits).value)))
  }

  function AllExpected(parts: seq<FormPart>, c: Config): (qs: seq<PartState>)
    requires AllGood(parts, c)
  {
    if parts == [] then [] else [Expected(parts[0], c)] + AllExpected(parts[1..], c)
  }

  // ----- lines

  lemma {:induction false} LineEndOfText(t: bytes, x: bytes)
    requires NoBreak(t)
    ensures LineEnd(t + (CRLF + x)) == |t| + 2
  {
    var s := t + (CRLF + x);
    if t == [] {
      assert s[0] == '\r' && s[1] == '\n';
    } else {
      LineEndOfText(t[1..], x);
      assert s[1..] == t[1..] + (CRLF + x);
      assert s[0] == t[0];
    }
  }

  lemma SplitText(t: bytes, x: bytes)
    requires NoBreak(t)
    ensures SplitLines(t + (CRLF + x)) == [t + CRLF] + SplitLines(x)
    ensures Text(t + CRLF) == t && Ending(t + CRLF) == CRLF
  {
    LineEndOfText(t, x);
    Assoc(t, CRLF, x);
    SplitFirst(t + (CRLF + x), |t| + 2);
  }

  lemma {:induction false} SplitAfterLf(b: bytes, x: bytes)
    requires b != [] && b[|b| - 1] == '\n'
    ensures SplitLines(b + x) == SplitLines(b) + SplitLines(x)
    decreases |b|
  {
    var n := LineEnd(b);
    SplitFirst(b, n);
    if n < |b| {
      LineEndStable(b, x);
      SplitAfterLf(b[n..], x);
      SplitConcat(b, x, n);
      SplitFirst(b + x, n);
      Assoc([b[..n]], SplitLines(b[n..]), SplitLines(x));
    } else {
      LineEndGrows(b, x);
      SplitFirst(b + x, n);
      SplitConcat(b, x, n);
      assert b[n..] == [];
    }
  }

  lemma {:induction false} LastLineEndsWithCrlf(b: bytes)
    requires CrlfAt(b, |b|)
    ensures SplitLines(b) != [] && Ending(Last(SplitLines(b))) == CRLF
    decreases |b|
  {
    var n := LineEnd(b);
    SplitFirst(b, n);
    if n < |b| {
      if b[n - 1] == '\r' {
        NoLfAfterCr(b);
      }
      LastLineEndsWithCrlf(b[n..]);
      assert Last([b[..n]] + SplitLines(b[n..])) == Last(SplitLines(b[n..]));
    } else {
      assert b[..n] == b && b[n..] == [];
    }
  }

  /** The line ending that the delimiter adds makes no boundary of a line that was none. */
  lemma {:induction false} BodyLinesStayClean(b: bytes, c: Config)
    requires NoBoundaryIn(SplitLines(b), c)
    ensures NoBoundaryIn(SplitLines(b + CRLF), c)
    decreases |b|
  {
    if b == [] {
      LastBodyLine([], c);
    } else {
      var n := LineEnd(b);
      SplitFirst(b, n);
      if n < |b| {
        LineEndStable(b, CRLF);
        SplitConcat(b, CRLF, n);
        SplitFirst(b + CRLF, n);
        NoBoundaryCons(b[..n], SplitLines(b[n..]), c);
        BodyLinesStayClean(b[n..], c);
        NoBoundaryCons(b[..n], SplitLines(b[n..] + CRLF), c);
      } else {
        assert b[..n] == b;
        LastBodyLine(b, c);
      }
    }
  }

  lemma NoBoundaryCons(line: bytes, ls: seq<bytes>, c: Config)
    ensures NoBoundaryIn([line] + ls, c) <==> !IsBoundary(Text(line), c) && NoBoundaryIn(ls, c)
  {
    assert ([line] + ls)[1..] == ls;
  }

  lemma EmptyLineIsNoBoundary(c: Config)
    ensures !IsBoundary([], c)
  {
    assert |c.Separator()| > 0 && |c.Terminator()| > 0;
  }

  lemma TakesCrlf(b: bytes)
    requires b != [] && LineEnd(b) == |b| && Ending(b) == ""
    ensures SplitLines(b + CRLF) == [b + CRLF] && Text(b + CRLF) == b
  {
    LineEndGrows(b, CRLF);
    PieceIsLine(b + CRLF);
  }

  lemma CrlfIsOneLine()
    ensures SplitLines(CRLF) == [CRLF] && Text(CRLF) == []
  {
    PieceIsLine(CRLF);
  }

  lemma KeepsEnding(b: bytes)
    requires b != [] && LineEnd(b) == |b| && Ending(b) != ""
    ensures SplitLines(b + CRLF) == [b, CRLF]
  {
    LineEndGrows(b, CRLF);
    SplitAtEnd(b, CRLF);
    CrlfIsOneLine();
  }

  lemma SplitAtEnd(b: bytes, x: bytes)
    requires b != [] && LineEnd(b + x) == |b|
    ensures SplitLines(b + x) == [b] + SplitLines(x)
  {
    SplitFirst(b + x, |b|);
    TakeDropConcat(b, x);
  }

  lemma TakeDropConcat(b: bytes, x: bytes)
    ensures (b + x)[..|b|] == b && (b + x)[|b|..] == x
  {
  }

  /** The last line of a body: it takes the CRLF when it has no ending of its own. */
  lemma LastBodyLine(b: bytes, c: Config)
    requires b == [] || (LineEnd(b) == |b| && !IsBoundary(Text(b), c))
    ensures NoBoundaryIn(SplitLines(b + CRLF), c)
  {
    EmptyLineIsNoBoundary(c);
    CrlfIsOneLine();
    NoBoundaryCons(CRLF, [], c);
    if b == [] {
      EmptyLeft(CRLF);
    } else if Ending(b) == "" {
      TakesCrlf(b);
      NoBoundaryCons(b + CRLF, [], c);
    } else {
      KeepsEnding(b);
      NoBoundaryCons(b, [CRLF], c);
    }
  }

  lemma PieceIsLine(s: bytes)
    requires s != [] && LineEnd(s) == |s|
    ensures SplitLines(s) == [s]
  {
    SplitFirst(s, |s|);
    assert s[|s|..] == [] && s[..|s|] == s;
  }

  // ----- headers

  lemma {:induction false} StripShortens(s: string)
    ensures |StripLeft(s)| <= |s| && |StripRight(s)| <= |s|
  {
    if s != [] {
      StripShortens(s[1..]);
      StripShortens(s[..|s| - 1]);
    }
  }

  lemma StrippedStart(s: string)
    requires s != [] && Strip(s) == s
    ensures !IsSpace(s[0])
  {
    StripShortens(s[1..]);
    StripShortens(StripLeft(s));
  }

  lemma StripSpace(s: string)
    ensures Strip(" " + s) == Strip(s)
  {
    assert (" " + s)[1..] == s;
  }

  lemma {:induction false} StripLeftKeeps(s: string, x: char)
    requires x in s && !IsSpace(x)
    ensures x in StripLeft(s)
  {
    if IsSpace(s[0]) {
      StripLeftKeeps(s[1..], x);
    }
  }

  lemma {:induction false} StripRightKeeps(s: string, x: char)
    requires x in s && !IsSpace(x)
    ensures x in StripRight(s)
  {
    if IsSpace(s[|s| - 1]) {
      assert s == s[..|s| - 1] + [s[|s| - 1]];
      StripRightKeeps(s[..|s| - 1], x);
    }
  }

  lemma {:induction false} FirstColon(name: string, rest: string)
    requires ':' !in name
    ensures Colon(name + (":" + rest)) == |name|
  {
    var s := name + (":" + rest);
    if name != [] {
      FirstColon(name[1..], rest);
      assert s[1..] == name[1..] + (":" + rest);
      assert s[0] == name[0];
    }
  }

  lemma HeaderColon(h: Header)
    requires ':' !in h.0
    ensures var line, k := HeaderText(h), |h.0|;
            Colon(line) == k < |line| && line[..k] == h.0 && line[k + 1..] == " " + h.1
  {
    assert HeaderText(h) == h.0 + (":" + (" " + h.1));
    FirstColon(h.0, " " + h.1);
  }

  /** A header line is neither blank nor a continuation line. */
  lemma HeaderStart(h: Header)
    requires ':' !in h.0 && Strip(h.0) == h.0
    ensures var line := HeaderText(h); Strip(line) != [] && line[0] !in " \t"
  {
    var line := HeaderText(h);
    assert line[|h.0|] == ':';
    StripLeftKeeps(line, ':');
    StripRightKeeps(StripLeft(line), ':');
    if h.0 != [] {
      StrippedStart(h.0);
      assert line[0] == h.0[0];
    }
  }

  /** A header line is read back as the header. */
  lemma ReadHeader(h: Header, before: seq<Header>, c: Config)
    requires GoodHeader(h, c)
    ensures WriteHeader(before, HeaderText(h), CRLF, c.limits) == Success(PartState(before + [h], None))
  {
    HeaderColon(h);
    HeaderStart(h);
    StripSpace(h.1);
    hide Strip, HeaderText, Colon, StripLeft, StripRight, IsBoundary;
  }

  /** The reference reads these lines, with that part begun, like those others. */
  ghost predicate ReadsLike(ls: seq<bytes>, p: PartState, ms: seq<bytes>, q: PartState, c: Config) {
    && RefFrom(ls, p, c) == RefFrom(ms, q, c) && RefOpen(ls, p, c) == RefOpen(ms, q, c)
    && (HeadersFit(ms, q, c) ==> HeadersFit(ls, p, c))
  }

  lemma LineReadsLike(line: bytes, ls: seq<bytes>, p: PartState, p': PartState, c: Config)
    requires ReadLine(p, line, c) == Fed(p') && (p.body == None ==> |line| <= c.limits.bufferSize)
    ensures ReadsLike([line] + ls, p, ls, p', c)
  {
    assert ([line] + ls)[1..] == ls;
  }

  /** The header block makes the headers, and opens the body. */
  lemma {:induction false} HeaderBlockReads(hs: seq<Header>, more: bytes, before: seq<Header>, c: Config)
    requires c.Accepted() && (forall h <- hs :: GoodHeader(h, c)) && FinishHeader(before + hs, c.limits).Success?
    ensures ReadsLike(SplitLines(HeaderBlock(hs, more)), PartState(before, None),
                      SplitLines(more), FinishHeader(before + hs, c.limits).value, c)
  {
    if hs == [] {
      assert before + hs == before;
      BlankLineReads(more, before, c);
    } else {
      hide ReadsLike, SplitLines, FinishHeader, GoodHeader;
      var h, rest := hs[0], HeaderBlock(hs[1..], more);
      var begun := PartState(before + [h], None);
      HeaderLineReads(h, rest, before, c);
      MoveHeader(before, hs);
      HeaderBlockReads(hs[1..], more, before + [h], c);
      ReadsLikeThrough(SplitLines(HeaderBlock(hs, more)), PartState(before, None), SplitLines(rest), begun,
                       SplitLines(more), FinishHeader(before + hs, c.limits).value, c);
    }
  }

  lemma MoveHeader(before: seq<Header>, hs: seq<Header>)
    requires hs != []
    ensures before + hs == before + [hs[0]] + hs[1..]
  {
  }

  lemma ReadsLikeThrough(ls: seq<bytes>, p: PartState, ms: seq<bytes>, q: PartState,
                         ns: seq<bytes>, r: PartState, c: Config)
    requires ReadsLike(ls, p, ms, q, c) && ReadsLike(ms, q, ns, r, c)
    ensures ReadsLike(ls, p, ns, r, c)
  {
  }

  lemma HeaderLineReads(h: Header, rest: bytes, before: seq<Header>, c: Config)
    requires GoodHeader(h, c)
    ensures ReadsLike(SplitLines(HeaderText(h) + (CRLF + rest)), PartState(before, None),
                      SplitLines(rest), PartState(before + [h], None), c)
  {
    var line := HeaderText(h) + CRLF;
    SplitText(HeaderText(h), rest);
    ReadHeader(h, before, c);
    LineReadsLike(line, SplitLines(rest), PartState(before, None), PartState(before + [h], None), c);
  }

  lemma BlankLineReads(more: bytes, before: seq<Header>, c: Config)
    requires c.Accepted() && FinishHeader(before, c.limits).Success?
    ensures ReadsLike(SplitLines(CRLF + more), PartState(before, None),
                      SplitLines(more), FinishHeader(before, c.limits).value, c)
  {
    EmptyLineIsNoBoundary(c);
    SplitText([], more);
    assert [] + (CRLF + more) == CRLF + more && [] + CRLF == CRLF;
    LineReadsLike(CRLF, SplitLines(more), PartState(before, None), FinishHeader(before, c.limits).value, c);
  }

  // ----- bodies

  /** The part after these body lines. */
  function AfterLines(p: PartState, ls: seq<bytes>, lim: Limits): (q: PartState)
    requires p.body.Some?
    ensures q.body.Some?
    decreases ls
  {
    if ls == [] then p else AfterLines(FeedWholeLine(p, ls[0], lim).value, ls[1..], lim)
  }

  lemma {:induction false} BodyLinesRead(ls: seq<bytes>, ms: seq<bytes>, p: PartState, c: Config)
    requires p.body.Some? && NoBoundaryIn(ls, c)
    ensures ReadsLike(ls + ms, p, ms, AfterLines(p, ls, c.limits), c)
    decreases ls
  {
    if ls == [] {
      EmptyLeft(ms);
    } else {
      var p' := FeedWholeLine(p, ls[0], c.limits).value;
      assert ls + ms == [ls[0]] + (ls[1..] + ms);
      LineReadsLike(ls[0], ls[1..] + ms, p, p', c);
      BodyLinesRead(ls[1..], ms, p', c);
    }
  }

  /** The bytes of body lines are kept: written, or held back as the last line ending. */
  lemma {:induction false} BodyKeepsBytes(p: PartState, ls: seq<bytes>, lim: Limits)
    requires p.body.Some? && ls != []
    ensures var q := AfterLines(p, ls, lim);
            && q.headers == p.headers && q.body.Some?
            && q.body.value.contentLength == p.body.value.contentLength
            && q.body.value.pending == Ending(Last(ls))
            && q.body.value.onDisk == (|q.body.value.content| > lim.memfileLimit)
            && q.body.value.content + q.body.value.pending == p.body.value.content + p.body.value.pending + Concat(ls)
    decreases ls
  {
    var p' := FeedWholeLine(p, ls[0], lim).value;
    FeedKeepsBytes(p, ls[0], lim);
    if |ls| == 1 {
      assert ls[1..] == [];
      assert Concat(ls) == ls[0] + [] == ls[0];
    } else {
      BodyKeepsBytes(p', ls[1..], lim);
      assert Last(ls[1..]) == Last(ls);
      Assoc(p.body.value.content + p.body.value.pending, ls[0], Concat(ls[1..]));
    }
  }

  lemma FeedKeepsBytes(p: PartState, line: bytes, lim: Limits)
    requires p.body.Some?
    ensures var b := FeedWholeLine(p, line, lim).value.body.value;
            b.content + b.pending == p.body.value.content + p.body.value.pending + line
  {
    var b := p.body.value;
    TextAndEnding(line);
    Assoc(b.content, b.pending, Text(line));
    Assoc(b.content + b.pending, Text(line), Ending(line));
  }

  lemma {:induction false} ConcatLines(s: bytes)
    ensures Concat(SplitLines(s)) == s
    decreases |s|
  {
    if s != [] {
      var n := LineEnd(s);
      SplitFirst(s, n);
      ConcatLines(s[n..]);
      ConcatCons(s[..n], SplitLines(s[n..]));
      assert s[..n] + s[n..] == s;
    }
  }

  lemma ConcatCons(l: bytes, ls: seq<bytes>)
    ensures Concat([l] + ls) == l + Concat(ls)
  {
    assert ([l] + ls)[1..] == ls;
  }

  /** The body that ends at a delimiter line is the body, without the CRLF that belongs to the delimiter. */
  lemma BodyReads(p: FormPart, more: bytes, c: Config)
    requires GoodPart(p, c)
    ensures ReadsLike(SplitLines(p.body + CRLF + more), FinishHeader(p.headers, c.limits).value,
                      SplitLines(more), Expected(p, c), c)
  {
    var b, open := p.body + CRLF, FinishHeader(p.headers, c.limits).value;
    SplitAfterLf(b, more);
    BodyLinesStayClean(p.body, c);
    BodyLinesRead(SplitLines(b), SplitLines(more), open, c);
    BodyMade(p, c);
  }

  lemma BodyMade(p: FormPart, c: Config)
    requires GoodPart(p, c)
    ensures AfterLines(FinishHeader(p.headers, c.limits).value, SplitLines(p.body + CRLF), c.limits) == Expected(p, c)
  {
    var b, open := p.body + CRLF, FinishHeader(p.headers, c.limits).value;
    LastLineEndsWithCrlf(b);
    BodyKeepsBytes(open, SplitLines(b), c.limits);
    ConcatLines(b);
    EmptyLeft(b);
    SameEnd(AfterLines(open, SplitLines(b), c.limits).body.value.content, p.body, CRLF);
  }

  lemma SameEnd(a: bytes, b: bytes, e: bytes)
    requires a + e == [] + [] + (b + e)
    ensures a == b
  {
    assert [] + [] + (b + e) == b + e;
    assert |a + e| == |b + e|;
    assert a == (a + e)[..|a|] && b == (b + e)[..|b|];
  }

  lemma PartReads(p: FormPart, more: bytes, c: Config)
    requires c.Accepted() && GoodPart(p, c)
    ensures ReadsLike(SplitLines(HeaderBlock(p.headers, p.body + CRLF + more)), EMPTY_PART,
                      SplitLines(more), Expected(p, c), c)
  {
    assert [] + p.headers == p.headers;
    HeaderBlockReads(p.headers, p.body + CRLF + more, [], c);
    BodyReads(p, more, c);
  }

  // ----- messages

  lemma BoundaryBreaks(c: Config)
    requires NoBreak(c.boundary)
    ensures NoBreak(c.Separator()) && NoBreak(c.Terminator()) && c.Separator() != c.Terminator()
  {
    SeparatorIsNoTerminator(c);
  }

  /** What follows a part: a delimiter ends it, and the next parts are read. */
  lemma {:induction false} MessageReads(parts: seq<FormPart>, p: PartState, c: Config, epilogue: bytes)
    requires c.Accepted() && NoBreak(c.boundary) && AllGood(parts, c) && p.body.Some?
    ensures RefFrom(SplitLines(Message(parts, c, epilogue)), p, c) == Some([p] + AllExpected(parts, c))
    ensures HeadersFit(SplitLines(Message(parts, c, epilogue)), p, c)
  {
    BoundaryBreaks(c);
    if parts == [] {
      SplitText(c.Terminator(), epilogue);
      RefFromCons(c.Terminator() + CRLF, SplitLines(epilogue), p, c);
      assert [p] + AllExpected([], c) == [p];
    } else {
      var rest := Message(parts[1..], c, epilogue);
      var block := HeaderBlock(parts[0].headers, parts[0].body + CRLF + rest);
      SplitText(c.Separator(), block);
      RefFromCons(c.Separator() + CRLF, SplitLines(block), p, c);
      assert ([c.Separator() + CRLF] + SplitLines(block))[1..] == SplitLines(block);
      PartReads(parts[0], rest, c);
      MessageReads(parts[1..], Expected(parts[0], c), c, epilogue);
    }
  }

  /** The round trip: every non-empty list of good parts that fits in the limits is read back,
      headers and bodies, in order and without error. */
  lemma RoundTrip(parts: seq<FormPart>, c: Config, epilogue: bytes)
    requires c.Accepted() && NoBreak(c.boundary)
    requires parts != [] && AllGood(parts, c) && RoomFor(AllExpected(parts, c), 0, 0, c.limits)
    ensures Parse(Message(parts, c, epilogue), c) == Outcome(AllExpected(parts, c), None)
  {
    var s := Message(parts, c, epilogue);
    var rest := Message(parts[1..], c, epilogue);
    var block := HeaderBlock(parts[0].headers, parts[0].body + CRLF + rest);
    BoundaryBreaks(c);
    SplitText(c.Separator(), block);
    RefParseCons(c.Separator() + CRLF, SplitLines(block), c);
    PartReads(parts[0], rest, c);
    MessageReads(parts[1..], Expected(parts[0], c), c, epilogue);
    ParseIsComplete(s, c, AllExpected(parts, c));
  }

  // ----- messages that lose their last part

  /** Good parts, and then one that no delimiter ends: its headers, and `tail` for a body. */
  function Unfinished(parts: seq<FormPart>, hs: seq<Header>, tail: bytes, c: Config): bytes {
    if parts == [] then c.Separator() + (CRLF + HeaderBlock(hs, tail))
    else c.Separator() + (CRLF + HeaderBlock(parts[0].headers, parts[0].body + CRLF
        + Unfinished(parts[1..], hs, tail, c)))
  }

  /** The part that is being read when the message is over. */
  function OpenPart(hs: seq<Header>, b: bytes, x: bytes, c: Config): PartState
    requires FinishHeader(hs, c.limits).Success?
  {
    FeedWholeLine(AfterLines(FinishHeader(hs, c.limits).value, SplitLines(b), c.limits), x + c.Terminator(),
        c.limits).value
  }

  /** The length of a number of full buffers. */
  predicate WholeBuffers(n: nat, bs: nat) {
    n == 0 || (0 < bs <= n && WholeBuffers(n - bs, bs))
  }

  /** Headers that are accepted, body lines that are no boundaries, and then a line of one or more buffers of text and
      the terminator. */
  predicate GoodTail(hs: seq<Header>, b: bytes, x: bytes, c: Config) {
    && (forall h <- hs :: GoodHeader(h, c)) && FinishHeader(hs, c.limits).Success?
    && (b == [] || b[|b| - 1] == '\n') && NoBoundaryIn(SplitLines(b), c)
    && NoBreak(x) && x != [] && WholeBuffers(|x|, c.limits.bufferSize)
  }

  lemma {:induction false} OneUnbrokenLine(s: bytes)
    requires NoBreak(s) && s != []
    ensures LineEnd(s) == |s| && Ending(s) == ""
  {
    if |s| > 1 {
      OneUnbrokenLine(s[1..]);
    }
  }

  lemma LongerThanBoundary(x: bytes, c: Config)
    requires c.Accepted() && NoBreak(c.boundary) && NoBreak(x) && |x| >= c.limits.bufferSize
    ensures var s := x + c.Terminator();
            SplitLines(s) == [s] && Text(s) == s && !IsBoundary(Text(s), c)
  {
    var s := x + c.Terminator();
    BoundaryBreaks(c);
    OneUnbrokenLine(s);
    PieceIsLine(s);
  }

  /** The pieces of the last line are its buffers, and the terminator. */
  lemma {:induction false} LastPieceOfLine(x: bytes, c: Config)
    requires c.Accepted() && NoBreak(c.boundary) && NoBreak(x) && WholeBuffers(|x|, c.limits.bufferSize)
    ensures Last(Pieces(x + c.Terminator(), c.limits.bufferSize)) == c.Terminator() == Text(c.Terminator())
    decreases |x|
  {
    var t, bs := c.Terminator(), c.limits.bufferSize;
    BoundaryBreaks(c);
    OneUnbrokenLine(t);
    if x == [] {
      assert [] + t == t;
      PieceAlone(t, bs);
    } else {
      OneUnbrokenLine(x + t);
      assert (x + t)[bs..] == x[bs..] + t;
      CutsOneBuffer(x + t, bs);
      PiecesFirst(x + t, bs, bs);
      hide Pieces, Cut, LineEnd, Ending;
      LastPieceOfLine(x[bs..], c);
    }
  }

  lemma CutsOneBuffer(s: bytes, bs: nat)
    requires bs >= 2 && |s| > bs + 1 && LineEnd(s) == |s|
    ensures Cut(s, bs) == bs
  {
  }

  lemma FirstLineOf(b: bytes, x: bytes)
    requires b != [] && b[|b| - 1] == '\n'
    ensures LineEnd(b + x) == LineEnd(b)
  {
    if LineEnd(b) < |b| {
      LineEndStable(b, x);
    } else {
      LineEndGrows(b, x);
    }
  }

  /** The last piece of a text is the last piece of its last line. */
  lemma {:induction false} LastPieceAfterLf(b: bytes, x: bytes, bs: nat)
    requires bs >= 2 && x != [] && (b == [] || b[|b| - 1] == '\n')
    ensures Last(Pieces(b + x, bs)) == Last(Pieces(x, bs))
    decreases |b|
  {
    if b == [] {
      assert b + x == x;
    } else {
      var n := LineEnd(b);
      FirstLineOf(b, x);
      SplitConcat(b, x, n);
      PiecesOfFirstLine(b + x, bs, n);
      hide LineEnd, Pieces;
      assert n < |b| ==> b[n..][|b| - n - 1] == b[|b| - 1];
      LastPieceAfterLf(b[n..], x, bs);
    }
  }

  lemma {:induction false} BlockEnds(hs: seq<Header>, more: bytes)
    ensures HeaderBlock(hs, more) == HeaderBlock(hs, []) + more
    ensures HeaderBlock(hs, []) != [] && HeaderBlock(hs, [])[|HeaderBlock(hs, [])| - 1] == '\n'
  {
    if hs == [] {
      EmptyLeft(CRLF);
      assert CRLF + [] == CRLF;
    } else {
      BlockEnds(hs[1..], more);
      Assoc(CRLF, HeaderBlock(hs[1..], []), more);
      Assoc(HeaderText(hs[0]), CRLF + HeaderBlock(hs[1..], []), more);
    }
  }

  lemma {:induction false} UnfinishedEnds(parts: seq<FormPart>, hs: seq<Header>, tail: bytes, c: Config)
    ensures var start := Unfinished(parts, hs, [], c);
            && Unfinished(parts, hs, tail, c) == start + tail
            && start != [] && start[|start| - 1] == '\n'
  {
    if parts == [] {
      BlockEnds(hs, tail);
      Assoc(CRLF, HeaderBlock(hs, []), tail);
      Assoc(c.Separator(), CRLF + HeaderBlock(hs, []), tail);
    } else {
      var p, start, whole := parts[0], Unfinished(parts[1..], hs, [], c), Unfinished(parts[1..], hs, tail, c);
      UnfinishedEnds(parts[1..], hs, tail, c);
      BlockEnds(p.headers, p.body + CRLF + whole);
      BlockEnds(p.headers, p.body + CRLF + start);
      Assoc(p.body + CRLF, start, tail);
      Assoc(HeaderBlock(p.headers, []), p.body + CRLF + start, tail);
      Assoc(CRLF, HeaderBlock(p.headers, p.body + CRLF + start), tail);
      Assoc(c.Separator(), CRLF + HeaderBlock(p.headers, p.body + CRLF + start), tail);
    }
  }

  /** The lines of the open part run out. */
  lemma TailReads(hs: seq<Header>, b: bytes, x: bytes, c: Config)
    requires c.Accepted() && NoBreak(c.boundary) && GoodTail(hs, b, x, c)
    ensures var ls := SplitLines(HeaderBlock(hs, b + (x + c.Terminator())));
            && RefOpen(ls, EMPTY_PART, c) == Some([OpenPart(hs, b, x, c)]) && RefFrom(ls, EMPTY_PART, c) == None
            && HeadersFit(ls, EMPTY_PART, c)
  {
    var line := x + c.Terminator();
    var open := FinishHeader(hs, c.limits).value;
    EmptyLeft(hs);
    HeaderBlockReads(hs, b + line, [], c);
    TailLines(b, x, c);
    BodyLinesRead(SplitLines(b), [line], open, c);
    OneLineLeft(line, AfterLines(open, SplitLines(b), c.limits), c);
    hide GoodHeader, FinishHeader, NoBoundaryIn, SplitLines, AfterLines, RefOpen, RefFrom, HeadersFit, HeaderBlock;
  }

  lemma TailLines(b: bytes, x: bytes, c: Config)
    requires c.Accepted() && NoBreak(c.boundary) && NoBreak(x) && x != [] && WholeBuffers(|x|, c.limits.bufferSize)
    requires b == [] || b[|b| - 1] == '\n'
    ensures var line := x + c.Terminator();
            SplitLines(b + line) == SplitLines(b) + [line] && !IsBoundary(Text(line), c)
  {
    var line := x + c.Terminator();
    LongerThanBoundary(x, c);
    if b == [] {
      EmptyLeft(line);
      EmptyLeft([line]);
    } else {
      SplitAfterLf(b, line);
    }
  }

  lemma OneLineLeft(line: bytes, p: PartState, c: Config)
    requires p.body.Some? && !IsBoundary(Text(line), c)
    ensures RefOpen([line], p, c) == Some([FeedWholeLine(p, line, c.limits).value]) && RefFrom([line], p, c) == None
    ensures HeadersFit([line], p, c)
  {
    assert [line][1..] == [];
  }

  /** What follows a part: the other parts, and the open one. */
  lemma {:induction false} UnfinishedReads(parts: seq<FormPart>, p: PartState, hs: seq<Header>, b: bytes, x: bytes,
                                           c: Config)
    requires c.Accepted() && NoBreak(c.boundary) && AllGood(parts, c) && GoodTail(hs, b, x, c) && p.body.Some?
    ensures var ls := SplitLines(Unfinished(parts, hs, b + (x + c.Terminator()), c));
            && RefOpen(ls, p, c) == Some([p] + (AllExpected(parts, c) + [OpenPart(hs, b, x, c)]))
                && RefFrom(ls, p, c) == None
            && HeadersFit(ls, p, c)
  {
    var tail := b + (x + c.Terminator());
    BoundaryBreaks(c);
    if parts == [] {
      var block := HeaderBlock(hs, tail);
      SplitText(c.Separator(), block);
      RefFromCons(c.Separator() + CRLF, SplitLines(block), p, c);
      assert ([c.Separator() + CRLF] + SplitLines(block))[1..] == SplitLines(block);
      TailReads(hs, b, x, c);
      EmptyLeft([OpenPart(hs, b, x, c)]);
    } else {
      var rest := Unfinished(parts[1..], hs, tail, c);
      var block := HeaderBlock(parts[0].headers, parts[0].body + CRLF + rest);
      SplitText(c.Separator(), block);
      RefFromCons(c.Separator() + CRLF, SplitLines(block), p, c);
      assert ([c.Separator() + CRLF] + SplitLines(block))[1..] == SplitLines(block);
      PartReads(parts[0], rest, c);
      UnfinishedReads(parts[1..], Expected(parts[0], c), hs, b, x, c);
      Assoc([Expected(parts[0], c)], AllExpected(parts[1..], c), [OpenPart(hs, b, x, c)]);
    }
  }

  lemma UnfinishedParses(parts: seq<FormPart>, hs: seq<Header>, b: bytes, x: bytes, c: Config)
    requires c.Accepted() && NoBreak(c.boundary) && AllGood(parts, c) && GoodTail(hs, b, x, c)
    ensures var ls := SplitLines(Unfinished(parts, hs, b + (x + c.Terminator()), c));
            && RefParseOpen(ls, c) == Some(AllExpected(parts, c) + [OpenPart(hs, b, x, c)]) && RefParse(ls, c) == None
            && AllHeadersFit(ls, c)
  {
    var tail := b + (x + c.Terminator());
    BoundaryBreaks(c);
    if parts == [] {
      var block := HeaderBlock(hs, tail);
      SplitText(c.Separator(), block);
      RefParseCons(c.Separator() + CRLF, SplitLines(block), c);
      TailReads(hs, b, x, c);
      EmptyLeft([OpenPart(hs, b, x, c)]);
    } else {
      var rest := Unfinished(parts[1..], hs, tail, c);
      var block := HeaderBlock(parts[0].headers, parts[0].body + CRLF + rest);
      SplitText(c.Separator(), block);
      RefParseCons(c.Separator() + CRLF, SplitLines(block), c);
      PartReads(parts[0], rest, c);
      UnfinishedReads(parts[1..], Expected(parts[0], c), hs, b, x, c);
      Assoc([Expected(parts[0], c)], AllExpected(parts[1..], c), [OpenPart(hs, b, x, c)]);
    }
  }

  /** The exception in `ParseIsSound` is real, for messages of any number of parts: a last body line made of buffers of
      text and the terminator is no boundary line, and yet the parse ends there without error, and without the part. */
  lemma TailThatReadsLikeTheTerminator(parts: seq<FormPart>, hs: seq<Header>, b: bytes, x: bytes, c: Config)
    requires c.Accepted() && NoBreak(c.boundary) && AllGood(parts, c) && GoodTail(hs, b, x, c)
    requires RoomFor(AllExpected(parts, c) + [OpenPart(hs, b, x, c)], 0, 0, c.limits)
    ensures var s := Unfinished(parts, hs, b + (x + c.Terminator()), c);
            Parse(s, c) == Outcome(AllExpected(parts, c), None) && RefParse(SplitLines(s), c) == None
  {
    var tail := b + (x + c.Terminator());
    var s, start := Unfinished(parts, hs, tail, c), Unfinished(parts, hs, [], c);
    UnfinishedParses(parts, hs, b, x, c);
    ParseRunsOut(s, c, AllExpected(parts, c) + [OpenPart(hs, b, x, c)]);
    UnfinishedEnds(parts, hs, tail, c);
    LastPieceAfterLf(start, tail, c.limits.bufferSize);
    LastPieceAfterLf(b, x + c.Terminator(), c.limits.bufferSize);
    LastPieceOfLine(x, c);
    InitOfMore(AllExpected(parts, c), OpenPart(hs, b, x, c));
  }

  lemma InitOfMore<T>(s: seq<T>, x: T)
    ensures Init(s + [x]) == s
  {
  }
}
