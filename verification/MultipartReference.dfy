/** What the parser promises: budgets, and refinement of a parser that reads whole lines. */
module MultipartReference {
  import opened Lines
  import opened Sequences
  import opened LineIteration
  import opened MultipartParts
  import opened MultipartParsing
  import opened Wrappers

  // ----- budgets

  function MemSum(parts: seq<PartState>): nat {
    if parts == [] then 0
    else MemSum(Init(parts)) + if IsBuffered(Last(parts)) then Size(Last(parts)) else 0
  }

  function DiskSum(parts: seq<PartState>): nat {
    if parts == [] then 0
    else DiskSum(Init(parts)) + if IsBuffered(Last(parts)) then 0 else Size(Last(parts))
  }

  /** A body is on disk exactly when it is too big for memory, and never longer than declared. */
  predicate PartWithin(p: PartState, lim: Limits) {
    p.body.Some? ==>
      var b := p.body.value;
      && (b.onDisk <==> |b.content| > lim.memfileLimit)
      && (b.contentLength > 0 ==> |b.content| <= b.contentLength)
  }

  predicate Budget(parts: seq<PartState>, lim: Limits) {
    && MemSum(parts) <= lim.memLimit && DiskSum(parts) <= lim.diskLimit
    && forall p <- parts :: p.body.Some? && PartWithin(p, lim)
  }

  /** The invariant of the main loop: the counters are the sums over what was yielded,
      and yielding the current part now would still respect the limits. */
  predicate LoopBudget(st: Progress, lim: Limits) {
    && st.memUsed == MemSum(st.yielded) && st.diskUsed == DiskSum(st.yielded)
    && Budget(st.yielded, lim) && PartWithin(st.part, lim)
    && OverLimit(st.part, st.memUsed, st.diskUsed, lim) == None
  }

  lemma StepKeepsBudget(st: Progress, line: bytes, nl: bytes, c: Config)
    requires LoopBudget(st, c.limits)
    ensures match Step(st, line, nl, c)
            case Continue(st') => LoopBudget(st', c.limits)
            case Finished(o) => Budget(o.parts, c.limits)
  {
    var more := st.yielded + [st.part];
    assert Init(more) == st.yielded && Last(more) == st.part;
  }

  lemma {:induction false} RunKeepsBudget(ps: seq<bytes>, last: bytes, st: Progress, c: Config)
    requires LoopBudget(st, c.limits)
    ensures Budget(Run(ps, last, st, c).parts, c.limits)
  {
    if ps != [] {
      StepKeepsBudget(st, Text(ps[0]), Ending(ps[0]), c);
      match Step(st, Text(ps[0]), Ending(ps[0]), c)
      case Finished(_) =>
      case Continue(st') => RunKeepsBudget(ps[1..], Text(ps[0]), st', c);
    }
  }

  lemma {:induction false} FirstBoundaryBudget(text: bytes, ps: seq<bytes>, c: Config)
    ensures Budget(FirstBoundary(text, ps, c).parts, c.limits)
    decreases ps
  {
    if text != [] {
      RunKeepsBudget(ps, text, START, c);
    } else if ps != [] {
      FirstBoundaryBudget(Text(ps[0]), ps[1..], c);
    }
  }

  /** For every stream: whatever was yielded, even before an error, respects every limit. */
  lemma ParseWithinBudget(content: bytes, c: Config)
    requires c.Accepted()
    ensures Budget(Parse(content, c).parts, c.limits)
  {
    var ps := Pieces(content, c.limits.bufferSize);
    if ps != [] {
      FirstBoundaryBudget(Text(ps[0]), ps[1..], c);
    }
  }

  // ----- the reference parser: whole lines, no buffer, no tails, no limits

  /** The part after one more whole line that is no boundary. */
  function FeedWholeLine(p: PartState, line: bytes, lim: Limits): Option<PartState> {
    match p.body
    case None =>
      (match WriteHeader(p.headers, Text(line), Ending(line), lim)
       case Failure(_) => None
       case Success(p') => Some(p'))
    case Some(b) =>
      var content := b.content + (b.pending + Text(line));
      Some(PartState(p.headers,
                     Some(Body(content, Ending(line), |content| > lim.memfileLimit, b.contentLength))))
  }

  /** What one whole line does to the part already begun. */
  datatype LineResult = Bad | Closed | Next | Fed(part: PartState)

  function ReadLine(p: PartState, line: bytes, c: Config): LineResult {
    if Text(line) == c.Terminator() then if p.body == None then Bad else Closed
    else if Text(line) == c.Separator() then if p.body == None then Bad else Next
    else
      match FeedWholeLine(p, line, c.limits)
      case None => Bad
      case Some(p') => Fed(p')
  }

  /** The parts that these lines make, `p` being the part already begun. */
  function RefFrom(ls: seq<bytes>, p: PartState, c: Config): Option<seq<PartState>> {
    if ls == [] then None
    else
      match ReadLine(p, ls[0], c)
      case Bad => None
      case Closed => Some([p])
      case Fed(p') => RefFrom(ls[1..], p', c)
      case Next =>
        match RefFrom(ls[1..], EMPTY_PART, c)
        case None => None
        case Some(ps) => Some([p] + ps)
  }

  /** When these lines run out before a terminator: the parts that they make, and the open one last. */
  function RefOpen(ls: seq<bytes>, p: PartState, c: Config): (r: Option<seq<PartState>>)
    ensures r.Some? ==> r.value != []
  {
    if ls == [] then Some([p])
    else
      match ReadLine(p, ls[0], c)
      case Bad => None
      case Closed => None
      case Fed(p') => RefOpen(ls[1..], p', c)
      case Next =>
        match RefOpen(ls[1..], EMPTY_PART, c)
        case None => None
        case Some(ps) => Some([p] + ps)
  }

  /** Leading blank lines, then the first boundary, then the parts. */
  function RefParse(ls: seq<bytes>, c: Config): Option<seq<PartState>> {
    if ls == [] then None
    else if Text(ls[0]) == [] then RefParse(ls[1..], c)
    else if Text(ls[0]) == c.Separator() then RefFrom(ls[1..], EMPTY_PART, c)
    else None
  }

  /** The same for lines that run out after the first boundary. */
  function RefParseOpen(ls: seq<bytes>, c: Config): (r: Option<seq<PartState>>)
    ensures r.Some? ==> r.value != []
  {
    if ls == [] then None
    else if Text(ls[0]) == [] then RefParseOpen(ls[1..], c)
    else if Text(ls[0]) == c.Separator() then RefOpen(ls[1..], EMPTY_PART, c)
    else None
  }

  // ----- the steps of one line

  /** The steps over a list of pieces. */
  function Steps(ps: seq<bytes>, st: Progress, c: Config): StepResult {
    if ps == [] then Continue(st)
    else
      match Step(st, Text(ps[0]), Ending(ps[0]), c)
      case Finished(o) => Finished(o)
      case Continue(st') => Steps(ps[1..], st', c)
  }

  lemma {:induction false} RunSteps(ps: seq<bytes>, qs: seq<bytes>, last: bytes, st: Progress, c: Config)
    requires ps != []
    ensures Run(ps + qs, last, st, c) == match Steps(ps, st, c)
                                         case Finished(o) => o
                                         case Continue(st') => Run(qs, Text(Last(ps)), st', c)
  {
    assert (ps + qs)[0] == ps[0] && (ps + qs)[1..] == ps[1..] + qs;
    match Step(st, Text(ps[0]), Ending(ps[0]), c) {
      case Finished(_) =>
      case Continue(st') =>
        if |ps| == 1 {
          assert ps[1..] + qs == qs;
        } else {
          RunSteps(ps[1..], qs, Text(ps[0]), st', c);
          assert Last(ps[1..]) == Last(ps);
        }
    }
  }

  /** The pieces of the first line come first. */
  lemma {:induction false} PiecesOfFirstLine(s: bytes, bs: nat, n: nat)
    requires s != [] && bs >= 2 && n == LineEnd(s)
    ensures Pieces(s, bs) == Pieces(s[..n], bs) + Pieces(s[n..], bs)
    decreases |s|
  {
    var c := Cut(s, bs);
    CutOfLine(s, bs, n);
    PiecesFirst(s, bs, c);
    if c == n {
      PieceAlone(s[..n], bs);
    } else {
      LineEndOfRest(s, bs, n, c);
      PiecesOfFirstLine(s[c..], bs, n - c);
      PiecesFirst(s[..n], bs, c);
      LinePrefix(s, n, c);
      Assoc([s[..c]], Pieces(s[c..][..n - c], bs), Pieces(s[n..], bs));
    }
  }

  lemma LineEndOfRest(s: bytes, bs: nat, n: nat, c: nat)
    requires s != [] && bs >= 2 && n == LineEnd(s) && c == Cut(s, bs) < n
    ensures LineEnd(s[c..]) == n - c
    ensures !CrlfAt(s, n) || c < n - 1
  {
    CutKeepsCrlf(s, bs);
    LineEndDrop(s, c);
  }

  lemma CutOfLine(s: bytes, bs: nat, n: nat)
    requires s != [] && bs >= 2 && n == LineEnd(s)
    ensures Cut(s[..n], bs) == Cut(s, bs)
  {
    LineEndOfPrefix(s, n);
  }

  lemma LinePrefix(s: bytes, n: nat, c: nat)
    requires c <= n <= |s|
    ensures s[..n][..c] == s[..c] && s[..n][c..] == s[c..][..n - c] && s[c..][n - c..] == s[n..]
  {
  }

  /** There is room for a body of `z` bytes in the part being fed. */
  predicate Room(z: nat, contentLength: int, memUsed: nat, diskUsed: nat, lim: Limits) {
    && (contentLength > 0 ==> z <= contentLength)
    && if z <= lim.memfileLimit then memUsed + z <= lim.memLimit
       else memUsed + lim.memfileLimit <= lim.memLimit && diskUsed + z <= lim.diskLimit
  }

  predicate IsBoundary(text: bytes, c: Config) {
    text == c.Terminator() || text == c.Separator()
  }

  /** One piece of a body: it ends in an error or does what the reference does with it. */
  lemma BodyStep(p: bytes, st: Progress, c: Config)
    requires p != [] && st.part.body.Some? && LoopBudget(st, c.limits)
    requires st.isTail || !IsBoundary(Text(p), c)
    ensures match Step(st, Text(p), Ending(p), c)
            case Finished(o) => o.parts == st.yielded && o.error.Some?
            case Continue(st') =>
              && st' == Progress(st.yielded, FeedWholeLine(st.part, p, c.limits).value,
                                 st.memUsed, st.diskUsed, Ending(p) == [])
              && LoopBudget(st', c.limits)
    ensures var b := st.part.body.value;
            forall z | Room(z, b.contentLength, st.memUsed, st.diskUsed, c.limits)
              && |b.content + (b.pending + Text(p))| <= z ::
              Step(st, Text(p), Ending(p), c).Continue?
  {
    TextAndEnding(p);
  }

  /** Glued, two pieces of a line do what the whole does. */
  lemma FeedInTwo(part: PartState, line: bytes, c: nat, lim: Limits)
    requires part.body.Some? && c < |line| && Ending(line[..c]) == []
    requires CrlfAt(line, |line|) ==> c < |line| - 1
    ensures Ending(line[c..]) == Ending(line) && Text(line) == line[..c] + Text(line[c..])
    ensures var half := FeedWholeLine(part, line[..c], lim).value;
            FeedWholeLine(half, line[c..], lim) == FeedWholeLine(part, line, lim)
  {
    var b := part.body.value;
    assert Ending(line[c..]) == Ending(line);
    assert Text(line) == line[..c] + Text(line[c..]);
    assert Text(line[..c]) == line[..c];
    Assoc(b.content, b.pending + line[..c], [] + Text(line[c..]));
    Assoc(b.pending, line[..c], Text(line[c..]));
    assert [] + Text(line[c..]) == Text(line[c..]);
  }

  /** All the pieces of a body line. */
  lemma {:induction false} BodyLine(line: bytes, st: Progress, c: Config, z: nat)
    requires c.Accepted() && line != [] && LineEnd(line) == |line|
    requires st.part.body.Some? && LoopBudget(st, c.limits)
    requires st.isTail || !IsBoundary(Text(line), c)
    requires |FeedWholeLine(st.part, line, c.limits).value.body.value.content| <= z
    ensures match Steps(Pieces(line, c.limits.bufferSize), st, c)
            case Finished(o) =>
              && o.parts == st.yielded && o.error.Some?
              && !Room(z, st.part.body.value.contentLength, st.memUsed, st.diskUsed, c.limits)
            case Continue(st') =>
              && st' == Progress(st.yielded, FeedWholeLine(st.part, line, c.limits).value,
                                 st.memUsed, st.diskUsed, Ending(line) == [])
              && LoopBudget(st', c.limits)
    decreases |line|
  {
    var bs := c.limits.bufferSize;
    var cut := Cut(line, bs);
    if cut == |line| {
      PieceAlone(line, bs);
      BodyStep(line, st, c);
    } else {
      LineEndOfRest(line, bs, |line|, cut);
      FirstPieceIsNoBoundary(line, c);
      CutKeepsCrlf(line, bs);
      assert line[..|line|] == line;
      FeedInTwo(st.part, line, cut, c.limits);
      BodyStep(line[..cut], st, c);
      PiecesFirst(line, bs, cut);
      match Step(st, Text(line[..cut]), Ending(line[..cut]), c)
      case Finished(_) =>
      case Continue(st') => BodyLine(line[cut..], st', c, z);
    }
  }

  /** A boundary line is never cut: the first piece of a line that is cut is too long for one. */
  lemma FirstPieceIsNoBoundary(line: bytes, c: Config)
    requires c.Accepted() && line != [] && Cut(line, c.limits.bufferSize) < LineEnd(line)
    ensures !IsBoundary(Text(line[..Cut(line, c.limits.bufferSize)]), c)
  {
    CutKeepsCrlf(line, c.limits.bufferSize);
  }

  lemma BoundaryIsOnePiece(line: bytes, c: Config)
    requires c.Accepted() && line != [] && LineEnd(line) == |line|
    requires IsBoundary(Text(line), c) || Text(line) == []
    ensures Pieces(line, c.limits.bufferSize) == [line]
  {
    BoundaryLength(Text(line), c);
    ShortLine(line, c.limits.bufferSize);
  }

  lemma BoundaryLength(text: bytes, c: Config)
    requires IsBoundary(text, c)  || text == []
    ensures |text| <= |c.boundary| + 4
  {
  }

  lemma ShortLine(line: bytes, bs: nat)
    requires line != [] && LineEnd(line) == |line| && |Text(line)| + 2 <= bs
    ensures Pieces(line, bs) == [line]
  {
    PieceAlone(line, bs);
  }

  /** All the pieces of a header line: it must fit in the buffer. */
  lemma HeaderLine(line: bytes, st: Progress, c: Config)
    requires c.Accepted() && line != [] && LineEnd(line) == |line|
    requires st.part.body == None && LoopBudget(st, c.limits) && !st.isTail && !IsBoundary(Text(line), c)
    ensures match Steps(Pieces(line, c.limits.bufferSize), st, c)
            case Finished(o) =>
              && o.parts == st.yielded && o.error.Some?
              && (|line| > c.limits.bufferSize || FeedWholeLine(st.part, line, c.limits) == None)
            case Continue(st') =>
              && FeedWholeLine(st.part, line, c.limits) == Some(st'.part)
              && st' == Progress(st.yielded, st'.part, st.memUsed, st.diskUsed, false)
              && LoopBudget(st', c.limits) && Pieces(line, c.limits.bufferSize) == [line]
  {
    var bs := c.limits.bufferSize;
    if |line| <= bs {
      PieceAlone(line, bs);
      OneStep(line, st, c);
      HeaderStep(line, st, c);
    } else {
      LongHeaderLine(line, st, c);
    }
    hide Step, Steps, FeedWholeLine, Pieces;
  }

  lemma HeaderStep(line: bytes, st: Progress, c: Config)
    requires st.part.body == None && LoopBudget(st, c.limits) && !st.isTail && !IsBoundary(Text(line), c)
    ensures match Step(st, Text(line), Ending(line), c)
            case Finished(o) => o.parts == st.yielded && o.error.Some? && FeedWholeLine(st.part, line, c.limits) == None
            case Continue(st') =>
              && FeedWholeLine(st.part, line, c.limits) == Some(st'.part)
              && st' == Progress(st.yielded, st'.part, st.memUsed, st.diskUsed, false)
              && LoopBudget(st', c.limits)
  {
  }

  /** A header line that does not fit in the buffer is an error at its first piece. */
  lemma LongHeaderLine(line: bytes, st: Progress, c: Config)
    requires c.Accepted() && line != [] && LineEnd(line) == |line| > c.limits.bufferSize
    requires st.part.body == None && !st.isTail
    ensures Steps(Pieces(line, c.limits.bufferSize), st, c) == Finished(Outcome(st.yielded, Some(EndOfLineInHeader)))
  {
    var bs := c.limits.bufferSize;
    FirstPieceIsNoBoundary(line, c);
    CutKeepsCrlf(line, bs);
    PiecesFirst(line, bs, Cut(line, bs));
  }

  /** The text of the last piece seen, `last` when there is none. */
  function LastText(ps: seq<bytes>, last: bytes): bytes {
    if ps == [] then last else Text(Last(ps))
  }

  /** After the first line of `s`, the run goes on with the rest of `s`. */
  lemma {:induction false} RunLine(s: bytes, last: bytes, st: Progress, c: Config, n: nat)
    requires c.Accepted() && s != [] && n == LineEnd(s)
    ensures LineEnd(s[..n]) == n && (n < |s| ==> Ending(s[..n]) != [])
    ensures SplitLines(s) == [s[..n]] + SplitLines(s[n..])
    ensures var bs := c.limits.bufferSize;
            && Run(Pieces(s, bs), last, st, c) ==
                 (match Steps(Pieces(s[..n], bs), st, c)
                  case Finished(o) => o
                  case Continue(st') => Run(Pieces(s[n..], bs), Text(Last(Pieces(s[..n], bs))), st', c))
            && LastText(Pieces(s, bs), last) == LastText(Pieces(s[n..], bs), Text(Last(Pieces(s[..n], bs))))
  {
    var bs := c.limits.bufferSize;
    LineEndOfPrefix(s, n);
    SplitFirst(s, n);
    PiecesOfFirstLine(s, bs, n);
    RunSteps(Pieces(s[..n], bs), Pieces(s[n..], bs), last, st, c);
  }

  /** The pieces of a whole line do what the reference does with the line, or end in an error;
      no error when header lines fit in the buffer and there is room for the body. */
  lemma OneLine(line: bytes, st: Progress, c: Config, z: nat)
    requires c.Accepted() && line != [] && LineEnd(line) == |line|
    requires LoopBudget(st, c.limits) && !st.isTail
    requires var r := ReadLine(st.part, line, c);
             r.Fed? ==> Size(r.part) <= z
    ensures var r := ReadLine(st.part, line, c);
            match Steps(Pieces(line, c.limits.bufferSize), st, c)
            case Finished(o) =>
              if r == Closed then o == Outcome(st.yielded + [st.part], None)
              else
                && o.parts == st.yielded && o.error.Some?
                && (r == Bad
                    || (r.Fed? && st.part.body == None && |line| > c.limits.bufferSize)
                    || (r.Fed? && st.part.body.Some?
                        && !Room(z, st.part.body.value.contentLength, st.memUsed, st.diskUsed, c.limits)))
            case Continue(st') =>
              && LoopBudget(st', c.limits)
              && (Text(Last(Pieces(line, c.limits.bufferSize))) == c.Terminator() ==> st'.part.body.Some?)
              && if r == Next then st'.part == EMPTY_PART && st'.yielded == st.yielded + [st.part] && !st'.isTail
                 else r.Fed? && st' == Progress(st.yielded, r.part, st.memUsed, st.diskUsed, Ending(line) == [])
  {
    if IsBoundary(Text(line), c) {
      BoundaryIsOnePiece(line, c);
      OneStep(line, st, c);
      SeparatorIsNoTerminator(c);
      StepKeepsBudget(st, Text(line), Ending(line), c);
    } else if st.part.body == None {
      HeaderLine(line, st, c);
    } else {
      BodyLine(line, st, c, z);
    }
  }

  lemma OneStep(p: bytes, st: Progress, c: Config)
    ensures Steps([p], st, c) == Step(st, Text(p), Ending(p), c)
  {
    assert [p][1..] == [];
  }

  lemma RefFromCons(line: bytes, ls: seq<bytes>, p: PartState, c: Config)
    ensures RefFrom([line] + ls, p, c) ==
              match ReadLine(p, line, c)
              case Bad => None
              case Closed => Some([p])
              case Fed(p') => RefFrom(ls, p', c)
              case Next => if RefFrom(ls, EMPTY_PART, c).None? then None
                           else Some([p] + RefFrom(ls, EMPTY_PART, c).value)
    ensures RefOpen([line] + ls, p, c) ==
              match ReadLine(p, line, c)
              case Bad => None
              case Closed => None
              case Fed(p') => RefOpen(ls, p', c)
              case Next => if RefOpen(ls, EMPTY_PART, c).None? then None
                           else Some([p] + RefOpen(ls, EMPTY_PART, c).value)
  {
    assert ([line] + ls)[1..] == ls;
  }

  /** The lines either reach a terminator or run out. */
  lemma {:induction false} OpenOrClosed(ls: seq<bytes>, p: PartState, c: Config)
    ensures RefFrom(ls, p, c).None? || RefOpen(ls, p, c).None?
  {
    if ls != [] {
      match ReadLine(p, ls[0], c)
      case Fed(p') => OpenOrClosed(ls[1..], p', c);
      case Next => OpenOrClosed(ls[1..], EMPTY_PART, c);
      case _ =>
    }
  }

  /** The lines ran out in the body of a part, just after a piece that reads like the terminator: the parts before that
      one are `parts`. */
  ghost predicate EndsInTail(ls: seq<bytes>, p: PartState, tail: bytes, parts: seq<PartState>, c: Config) {
    && tail == c.Terminator() && RefOpen(ls, p, c).Some?
    && Last(RefOpen(ls, p, c).value).body.Some? && parts == Init(RefOpen(ls, p, c).value)
  }

  lemma EndsInTailCons(line: bytes, ls: seq<bytes>, p: PartState, tail: bytes, parts: seq<PartState>, c: Config)
    ensures match ReadLine(p, line, c)
            case Fed(p') => EndsInTail(ls, p', tail, parts, c) ==> EndsInTail([line] + ls, p, tail, parts, c)
            case Next => EndsInTail(ls, EMPTY_PART, tail, parts, c) ==> EndsInTail([line] + ls, p, tail, [p] + parts, c)
            case _ => true
  {
    RefFromCons(line, ls, p, c);
    if RefOpen(ls, EMPTY_PART, c).Some? {
      var ps := RefOpen(ls, EMPTY_PART, c).value;
      assert Init([p] + ps) == [p] + Init(ps) && Last([p] + ps) == Last(ps);
    }
  }

  /** What an iteration that ends without error has yielded, after `yielded`: what the reference parser reads, unless
      the bytes run out in the body of a part just after a piece of a longer line that reads like the terminator; then
      that part is missing. */
  ghost predicate ReadSoundly(yielded: seq<PartState>, parts: seq<PartState>, ls: seq<bytes>, p: PartState, tail: bytes,
                              c: Config) {
    match RefFrom(ls, p, c)
    case Some(qs) => parts == yielded + qs
    case None => exists before :: EndsInTail(ls, p, tail, before, c) && parts == yielded + before
  }

  lemma SoundlyCons(line: bytes, ls: seq<bytes>, st: Progress, st': Progress, tail: bytes, parts: seq<PartState>,
                    c: Config)
    requires var r := ReadLine(st.part, line, c);
             if r == Next then st'.part == EMPTY_PART && st'.yielded == st.yielded + [st.part]
             else r.Fed? && st'.yielded == st.yielded && st'.part == r.part
    requires ReadSoundly(st'.yielded, parts, ls, st'.part, tail, c)
    ensures ReadSoundly(st.yielded, parts, [line] + ls, st.part, tail, c)
  {
    hide ReadLine, RefFrom, RefOpen, EndsInTail;
    RefFromCons(line, ls, st.part, c);
    var next := ReadLine(st.part, line, c) == Next;
    if RefFrom(ls, st'.part, c).Some? {
      Assoc(st.yielded, [st.part], RefFrom(ls, st'.part, c).value);
    } else {
      var before :| EndsInTail(ls, st'.part, tail, before, c) && parts == st'.yielded + before;
      EndsInTailCons(line, ls, st.part, tail, before, c);
      Assoc(st.yielded, [st.part], before);
      assert EndsInTail([line] + ls, st.part, tail, if next then [st.part] + before else before, c);
    }
  }

  /** Soundness of the loop over the pieces. */
  lemma {:induction false} RunIsSound(s: bytes, last: bytes, st: Progress, c: Config)
    requires c.Accepted() && LoopBudget(st, c.limits) && (s != [] ==> !st.isTail)
    requires last == c.Terminator() ==> st.part.body.Some?
    ensures var o := Run(Pieces(s, c.limits.bufferSize), last, st, c);
            o.error == None ==>
              ReadSoundly(st.yielded, o.parts, SplitLines(s), st.part, LastText(Pieces(s, c.limits.bufferSize), last),
                  c)
    decreases |s|
  {
    if s == [] {
      assert Pieces(s, c.limits.bufferSize) == [] && SplitLines(s) == [];
      assert Init([st.part]) == [] && st.yielded + [] == st.yielded;
      assert last == c.Terminator() ==> EndsInTail([], st.part, last, [], c);
    } else {
      hide ReadLine, Steps, LoopBudget, Room, RefFrom, Run, Pieces, SplitLines, ReadSoundly;
      var bs, n := c.limits.bufferSize, LineEnd(s);
      var line := s[..n];
      RunLine(s, last, st, c, n);
      var r := ReadLine(st.part, line, c);
      OneLine(line, st, c, if r.Fed? then Size(r.part) else 0);
      match Steps(Pieces(line, bs), st, c)
      case Finished(o) =>
        if r == Closed {
          ClosedIsSound(line, SplitLines(s[n..]), st, LastText(Pieces(s, bs), last), c);
        }
      case Continue(st') =>
        var last' := Text(Last(Pieces(line, bs)));
        var o := Run(Pieces(s[n..], bs), last', st', c);
        RunIsSound(s[n..], last', st', c);
        if o.error == None {
          SoundlyCons(line, SplitLines(s[n..]), st, st', LastText(Pieces(s, bs), last), o.parts, c);
        }
    }
  }

  lemma ClosedIsSound(line: bytes, ls: seq<bytes>, st: Progress, tail: bytes, c: Config)
    requires ReadLine(st.part, line, c) == Closed
    ensures ReadSoundly(st.yielded, st.yielded + [st.part], [line] + ls, st.part, tail, c)
  {
    RefFromCons(line, ls, st.part, c);
  }

  // ----- completeness

  /** There is room for all these bodies, one after the other. */
  predicate RoomFor(qs: seq<PartState>, memUsed: nat, diskUsed: nat, lim: Limits) {
    qs == [] ||
    (&& (qs[0].body.Some? ==> Room(Size(qs[0]), qs[0].body.value.contentLength, memUsed, diskUsed, lim))
     && RoomFor(qs[1..],
                if Size(qs[0]) <= lim.memfileLimit then memUsed + Size(qs[0]) else memUsed,
                if Size(qs[0]) <= lim.memfileLimit then diskUsed else diskUsed + Size(qs[0]), lim))
  }

  /** Every header line fits in the buffer. */
  predicate HeadersFit(ls: seq<bytes>, p: PartState, c: Config) {
    ls == [] ||
    match ReadLine(p, ls[0], c)
    case Bad => true
    case Closed => true
    case Next => HeadersFit(ls[1..], EMPTY_PART, c)
    case Fed(p') => (p.body == None ==> |ls[0]| <= c.limits.bufferSize) && HeadersFit(ls[1..], p', c)
  }

  /** The parts that these lines make, whether a terminator ends them or not. */
  predicate Makes(ls: seq<bytes>, p: PartState, qs: seq<PartState>, c: Config) {
    RefFrom(ls, p, c) == Some(qs) || RefOpen(ls, p, c) == Some(qs)
  }

  /** A body only grows, and its declared length does not change. */
  lemma {:induction false} BodyGrows(ls: seq<bytes>, p: PartState, qs: seq<PartState>, c: Config)
    requires p.body.Some? && Makes(ls, p, qs, c)
    ensures && qs != [] && qs[0].body.Some? && Size(p) <= Size(qs[0])
            && qs[0].body.value.contentLength == p.body.value.contentLength
  {
    if ls != [] {
      match ReadLine(p, ls[0], c)
      case Fed(p') => BodyGrows(ls[1..], p', qs, c);
      case _ =>
    }
  }

  /** Completeness: what the reference parser reads is yielded, when header lines fit and there is room. */
  lemma {:induction false} RunIsComplete(s: bytes, last: bytes, st: Progress, c: Config, qs: seq<PartState>)
    requires c.Accepted() && LoopBudget(st, c.limits) && (s != [] ==> !st.isTail)
    requires RefFrom(SplitLines(s), st.part, c) == Some(qs)
    requires HeadersFit(SplitLines(s), st.part, c) && RoomFor(qs, st.memUsed, st.diskUsed, c.limits)
    ensures Run(Pieces(s, c.limits.bufferSize), last, st, c) == Outcome(st.yielded + qs, None)
    decreases |s|
  {
    if s != [] {
      hide ReadLine, Steps, Run, Pieces, SplitLines, Room, RefFrom, HeadersFit, RoomFor;
      var bs, n := c.limits.bufferSize, LineEnd(s);
      var line, rest := s[..n], SplitLines(s[n..]);
      RunLine(s, last, st, c, n);
      var r := ReadLine(st.part, line, c);
      RefFromCons(line, rest, st.part, c);
      HeadersFitCons(line, rest, st.part, c);
      RoomForFirst(line, rest, st, c, qs);
      AfterFirst(line, rest, st, c, qs);
      OneLine(line, st, c, Size(qs[0]));
      match Steps(Pieces(line, bs), st, c)
      case Finished(_) =>
      case Continue(st') =>
        var last' := Text(Last(Pieces(line, bs)));
        if r == Next {
          NextSums(st, st', c);
          RunIsComplete(s[n..], last', st', c, qs[1..]);
          Assoc(st.yielded, [st.part], qs[1..]);
        } else {
          RunIsComplete(s[n..], last', st', c, qs);
        }
    }
  }

  lemma HeadersFitCons(line: bytes, ls: seq<bytes>, p: PartState, c: Config)
    requires HeadersFit([line] + ls, p, c)
    ensures match ReadLine(p, line, c)
            case Bad => true
            case Closed => true
            case Next => HeadersFit(ls, EMPTY_PART, c)
            case Fed(p') => (p.body == None ==> |line| <= c.limits.bufferSize) && HeadersFit(ls, p', c)
  {
    assert ([line] + ls)[1..] == ls;
  }

  /** The counters after a part was yielded. */
  lemma NextSums(st: Progress, st': Progress, c: Config)
    requires LoopBudget(st, c.limits) && LoopBudget(st', c.limits) && st.part.body.Some?
    requires st'.yielded == st.yielded + [st.part]
    ensures st'.memUsed == if Size(st.part) <= c.limits.memfileLimit then st.memUsed + Size(st.part) else st.memUsed
    ensures st'.diskUsed == if Size(st.part) <= c.limits.memfileLimit then st.diskUsed else st.diskUsed + Size(st.part)
  {
    assert Init(st'.yielded) == st.yielded;
  }

  /** The room for the first part is room for the part being fed. */
  lemma RoomForFirst(line: bytes, ls: seq<bytes>, st: Progress, c: Config, qs: seq<PartState>)
    requires Makes([line] + ls, st.part, qs, c)
    requires RoomFor(qs, st.memUsed, st.diskUsed, c.limits)
    ensures qs != []
    ensures var r := ReadLine(st.part, line, c); r.Fed? ==> Size(r.part) <= Size(qs[0])
    ensures st.part.body.Some? ==>
              Room(Size(qs[0]), st.part.body.value.contentLength, st.memUsed, st.diskUsed, c.limits)
  {
    hide Room, ReadLine;
    RefFromCons(line, ls, st.part, c);
    MakesSome([line] + ls, st.part, qs, c);
    if st.part.body.Some? {
      BodyGrows([line] + ls, st.part, qs, c);
    }
    var r := ReadLine(st.part, line, c);
    if r.Fed? && r.part.body.Some? {
      BodyGrows(ls, r.part, qs, c);
    }
  }

  /** A part that a boundary line ends comes first; the others follow. */
  lemma PartsAfterFirst(line: bytes, ls: seq<bytes>, p: PartState, c: Config, qs: seq<PartState>)
    requires Makes([line] + ls, p, qs, c) && qs != []
    ensures ReadLine(p, line, c) == Closed ==> qs == [p]
    ensures ReadLine(p, line, c) == Next ==>
              && p.body.Some? && qs == [p] + qs[1..]
              && (RefFrom([line] + ls, p, c) == Some(qs) ==> RefFrom(ls, EMPTY_PART, c) == Some(qs[1..]))
              && (RefOpen([line] + ls, p, c) == Some(qs) ==> RefOpen(ls, EMPTY_PART, c) == Some(qs[1..]))
  {
    RefFromCons(line, ls, p, c);
    hide RefFrom, RefOpen;
    if ReadLine(p, line, c) == Next {
      if RefFrom([line] + ls, p, c) == Some(qs) {
        assert qs[1..] == RefFrom(ls, EMPTY_PART, c).value;
      }
      if RefOpen([line] + ls, p, c) == Some(qs) {
        assert qs[1..] == RefOpen(ls, EMPTY_PART, c).value;
      }
    }
  }

  lemma RoomAfterFirst(p: PartState, memUsed: nat, diskUsed: nat, c: Config, qs: seq<PartState>)
    requires qs != [] && qs[0] == p && RoomFor(qs, memUsed, diskUsed, c.limits)
    ensures RoomFor(qs[1..],
              if Size(p) <= c.limits.memfileLimit then memUsed + Size(p) else memUsed,
              if Size(p) <= c.limits.memfileLimit then diskUsed else diskUsed + Size(p), c.limits)
  {
  }

  lemma AfterFirst(line: bytes, ls: seq<bytes>, st: Progress, c: Config, qs: seq<PartState>)
    requires Makes([line] + ls, st.part, qs, c) && qs != [] && RoomFor(qs, st.memUsed, st.diskUsed, c.limits)
    ensures ReadLine(st.part, line, c) == Closed ==> qs == [st.part]
    ensures ReadLine(st.part, line, c) == Next ==>
              && st.part.body.Some? && qs == [st.part] + qs[1..]
              && (RefFrom([line] + ls, st.part, c) == Some(qs) ==> RefFrom(ls, EMPTY_PART, c) == Some(qs[1..]))
              && (RefOpen([line] + ls, st.part, c) == Some(qs) ==> RefOpen(ls, EMPTY_PART, c) == Some(qs[1..]))
              && RoomFor(qs[1..],
                   if Size(st.part) <= c.limits.memfileLimit then st.memUsed + Size(st.part) else st.memUsed,
                   if Size(st.part) <= c.limits.memfileLimit then st.diskUsed
                       else st.diskUsed + Size(st.part), c.limits)
  {
    hide ReadLine, RefFrom, RefOpen, RoomFor, HeadersFit;
    PartsAfterFirst(line, ls, st.part, c, qs);
    if ReadLine(st.part, line, c) == Next {
      RoomAfterFirst(st.part, st.memUsed, st.diskUsed, c, qs);
    }
  }

  lemma {:induction false} MakesSome(ls: seq<bytes>, p: PartState, qs: seq<PartState>, c: Config)
    requires Makes(ls, p, qs, c)
    ensures qs != []
  {
    if ls != [] {
      match ReadLine(p, ls[0], c)
      case Fed(p') => MakesSome(ls[1..], p', qs, c);
      case _ =>
    }
  }

  function EndError(tail: bytes, c: Config): Option<Error> {
    if tail == c.Terminator() then None else Some(UnexpectedEnd)
  }

  /** When the lines run out, the open part is missing. That is an error, except after a piece that reads like the
      terminator. */
  lemma {:induction false} RunRunsOut(s: bytes, last: bytes, st: Progress, c: Config, qs: seq<PartState>)
    requires c.Accepted() && LoopBudget(st, c.limits) && (s != [] ==> !st.isTail)
    requires RefOpen(SplitLines(s), st.part, c) == Some(qs)
    requires HeadersFit(SplitLines(s), st.part, c) && RoomFor(qs, st.memUsed, st.diskUsed, c.limits)
    ensures Run(Pieces(s, c.limits.bufferSize), last, st, c) ==
              Outcome(st.yielded + Init(qs), EndError(LastText(Pieces(s, c.limits.bufferSize), last), c))
    decreases |s|
  {
    if s == [] {
      assert Init(qs) == [] && st.yielded + [] == st.yielded;
    } else {
      hide ReadLine, Steps, Run, Pieces, SplitLines, Room, RefFrom, RefOpen, HeadersFit, RoomFor, EndError, LastText;
      var bs, n := c.limits.bufferSize, LineEnd(s);
      var line, rest := s[..n], SplitLines(s[n..]);
      RunLine(s, last, st, c, n);
      var r := ReadLine(st.part, line, c);
      RefFromCons(line, rest, st.part, c);
      HeadersFitCons(line, rest, st.part, c);
      RoomForFirst(line, rest, st, c, qs);
      AfterFirst(line, rest, st, c, qs);
      OneLine(line, st, c, Size(qs[0]));
      match Steps(Pieces(line, bs), st, c)
      case Finished(_) =>
      case Continue(st') =>
        var last' := Text(Last(Pieces(line, bs)));
        if r == Next {
          NextSums(st, st', c);
          RunRunsOut(s[n..], last', st', c, qs[1..]);
          InitAfter(st.yielded, st.part, qs);
        } else {
          RunRunsOut(s[n..], last', st', c, qs);
        }
    }
  }

  lemma InitAfter(yielded: seq<PartState>, p: PartState, qs: seq<PartState>)
    requires |qs| > 1 && qs == [p] + qs[1..]
    ensures yielded + Init(qs) == yielded + [p] + Init(qs[1..])
  {
  }

  // ----- the whole parser

  /** What the first line of a stream decides. */
  lemma FirstLine(s: bytes, c: Config, n: nat)
    requires c.Accepted() && s != [] && n == LineEnd(s)
    ensures SplitLines(s) == [s[..n]] + SplitLines(s[n..])
    ensures Parse(s, c) ==
              if Text(s[..n]) == [] then
                if s[n..] == [] then Outcome([], Some(NoFirstBoundary)) else Parse(s[n..], c)
              else if Text(s[..n]) == c.Separator() then
                Run(Pieces(s[n..], c.limits.bufferSize), c.Separator(), START, c)
              else Outcome([], Some(NoFirstBoundary))
    ensures Text(s[..n]) == c.Separator() || (Text(s[..n]) == [] && s[n..] != []) ==>
              Pieces(s, c.limits.bufferSize) == [s[..n]] + Pieces(s[n..], c.limits.bufferSize)
  {
    var bs := c.limits.bufferSize;
    var line := s[..n];
    SplitFirst(s, n);
    LineEndOfPrefix(s, n);
    PiecesOfFirstLine(s, bs, n);
    if IsBoundary(Text(line), c) || Text(line) == [] {
      BoundaryIsOnePiece(line, c);
      assert ([line] + Pieces(s[n..], bs))[1..] == Pieces(s[n..], bs);
    } else if Cut(line, bs) < n {
      FirstPieceIsNoBoundary(line, c);
      CutKeepsCrlf(line, bs);
    }
  }

  /** The parts of a stream that ends in the body of a part, just after a piece that reads like the terminator. */
  ghost predicate LosesTail(s: bytes, parts: seq<PartState>, c: Config)
    requires c.Accepted()
  {
    && s != [] && Text(Last(Pieces(s, c.limits.bufferSize))) == c.Terminator()
    && match RefParseOpen(SplitLines(s), c)
       case None => false
       case Some(qs) => Last(qs).body.Some? && parts == Init(qs)
  }

  /** Soundness, for every stream: the parts of an error-free parse are those of the reference parser, unless the lines
      hold no terminator and the last piece reads like one in the middle of a body; then the part of that body is
      missing. */
  lemma {:induction false} ParseIsSound(s: bytes, c: Config)
    requires c.Accepted() && Parse(s, c).error == None
    ensures match RefParse(SplitLines(s), c)
            case Some(qs) => Parse(s, c).parts == qs
            case None => LosesTail(s, Parse(s, c).parts, c)
    decreases |s|
  {
    if s != [] {
      var n := LineEnd(s);
      FirstLine(s, c, n);
      RefParseCons(s[..n], SplitLines(s[n..]), c);
      LastTextCons(s[..n], Pieces(s[n..], c.limits.bufferSize), c);
      if Text(s[..n]) == [] {
        ParseIsSound(s[n..], c);
      } else {
        StartIsSound(s[n..], c);
      }
    }
  }

  lemma StartIsSound(s: bytes, c: Config)
    requires c.Accepted()
    requires Run(Pieces(s, c.limits.bufferSize), c.Separator(), START, c).error == None
    ensures var o := Run(Pieces(s, c.limits.bufferSize), c.Separator(), START, c);
            match RefFrom(SplitLines(s), EMPTY_PART, c)
            case Some(qs) => o.parts == qs
            case None =>
              EndsInTail(SplitLines(s), EMPTY_PART, LastText(Pieces(s, c.limits.bufferSize), c.Separator()), o.parts, c)
  {
    SeparatorIsNoTerminator(c);
    RunIsSound(s, c.Separator(), START, c);
    hide RefFrom, EndsInTail, Run, Pieces, SplitLines;
    var o := Run(Pieces(s, c.limits.bufferSize), c.Separator(), START, c);
    var tail := LastText(Pieces(s, c.limits.bufferSize), c.Separator());
    if RefFrom(SplitLines(s), EMPTY_PART, c).Some? {
      EmptyLeft(RefFrom(SplitLines(s), EMPTY_PART, c).value);
    } else {
      var before :| EndsInTail(SplitLines(s), EMPTY_PART, tail, before, c) && o.parts == [] + before;
      EmptyLeft(before);
    }
  }

  lemma RefParseCons(line: bytes, ls: seq<bytes>, c: Config)
    ensures RefParse([line] + ls, c) ==
              if Text(line) == [] then RefParse(ls, c)
              else if Text(line) == c.Separator() then RefFrom(ls, EMPTY_PART, c)
              else None
    ensures RefParseOpen([line] + ls, c) ==
              if Text(line) == [] then RefParseOpen(ls, c)
              else if Text(line) == c.Separator() then RefOpen(ls, EMPTY_PART, c)
              else None
    ensures AllHeadersFit([line] + ls, c) ==
              if Text(line) == [] then AllHeadersFit(ls, c) else HeadersFit(ls, EMPTY_PART, c)
  {
    assert ([line] + ls)[1..] == ls;
  }

  lemma LastTextCons(line: bytes, ps: seq<bytes>, c: Config)
    ensures LastText(ps, c.Separator()) == c.Terminator() ==>
              ps != [] && Text(Last([line] + ps)) == c.Terminator()
    ensures Text(line) == c.Separator() ==> LastText(ps, c.Separator()) == Text(Last([line] + ps))
    ensures ps != [] ==> Last([line] + ps) == Last(ps)
  {
    SeparatorIsNoTerminator(c);
  }

  lemma SeparatorIsNoTerminator(c: Config)
    ensures c.Separator() != c.Terminator()
  {
    assert |c.Separator()| < |c.Terminator()|;
  }

  /** Header lines fit, from the first boundary on. */
  predicate AllHeadersFit(ls: seq<bytes>, c: Config) {
    ls == [] ||
    if Text(ls[0]) == [] then AllHeadersFit(ls[1..], c) else HeadersFit(ls[1..], EMPTY_PART, c)
  }

  /** Completeness, for every stream: what the reference parser reads is what is yielded, without error,
      when header lines fit in the buffer and the bodies fit in the limits. */
  lemma {:induction false} ParseIsComplete(s: bytes, c: Config, qs: seq<PartState>)
    requires c.Accepted() && RefParse(SplitLines(s), c) == Some(qs)
    requires AllHeadersFit(SplitLines(s), c) && RoomFor(qs, 0, 0, c.limits)
    ensures Parse(s, c) == Outcome(qs, None)
    decreases |s|
  {
    if s != [] {
      var n := LineEnd(s);
      FirstLine(s, c, n);
      RefParseCons(s[..n], SplitLines(s[n..]), c);
      if Text(s[..n]) == [] {
        ParseIsComplete(s[n..], c, qs);
      } else {
        StartIsComplete(s[n..], c, qs);
      }
    }
  }

  lemma StartIsComplete(s: bytes, c: Config, qs: seq<PartState>)
    requires c.Accepted() && RefFrom(SplitLines(s), EMPTY_PART, c) == Some(qs)
    requires HeadersFit(SplitLines(s), EMPTY_PART, c) && RoomFor(qs, 0, 0, c.limits)
    ensures Run(Pieces(s, c.limits.bufferSize), c.Separator(), START, c) == Outcome(qs, None)
  {
    RunIsComplete(s, c.Separator(), START, c, qs);
    EmptyLeft(qs);
  }

  /** When the lines of a stream run out, headers fit and there is room, the parts before the open one are yielded, and
      the parse ends without error exactly when the last piece reads like the terminator. */
  lemma {:induction false} ParseRunsOut(s: bytes, c: Config, qs: seq<PartState>)
    requires c.Accepted() && RefParseOpen(SplitLines(s), c) == Some(qs)
    requires AllHeadersFit(SplitLines(s), c) && RoomFor(qs, 0, 0, c.limits)
    ensures s != [] && Parse(s, c) == Outcome(Init(qs), EndError(Text(Last(Pieces(s, c.limits.bufferSize))), c))
    decreases |s|
  {
    if s != [] {
      hide HeadersFit, RoomFor, RefOpen, Run, EndError, Pieces, SplitLines;
      var n := LineEnd(s);
      FirstLine(s, c, n);
      RefParseCons(s[..n], SplitLines(s[n..]), c);
      LastTextCons(s[..n], Pieces(s[n..], c.limits.bufferSize), c);
      if Text(s[..n]) == [] {
        ParseRunsOut(s[n..], c, qs);
      } else {
        StartRunsOut(s[n..], c, qs);
      }
    }
  }

  lemma StartRunsOut(s: bytes, c: Config, qs: seq<PartState>)
    requires c.Accepted() && RefOpen(SplitLines(s), EMPTY_PART, c) == Some(qs)
    requires HeadersFit(SplitLines(s), EMPTY_PART, c) && RoomFor(qs, 0, 0, c.limits)
    ensures Run(Pieces(s, c.limits.bufferSize), c.Separator(), START, c) ==
              Outcome(Init(qs), EndError(LastText(Pieces(s, c.limits.bufferSize), c.Separator()), c))
  {
    RunRunsOut(s, c.Separator(), START, c, qs);
    EmptyLeft(Init(qs));
  }
}
