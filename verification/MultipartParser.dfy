/** `MultipartParser._iterparse`: the boundary state machine over the pieces of the stream. */
module MultipartParsing {
  import opened Lines
  import opened Sequences
  import opened LineIteration
  import opened MultipartParts
  import opened Wrappers

  datatype Config = Config(boundary: bytes, limits: Limits)
  {
    /** What the constructor demands: "--boundary--" and a CRLF fit in the buffer. */
    predicate Accepted() {
      limits.bufferSize >= |boundary| + 6
    }

    function Separator(): (s: bytes)
      ensures |s| == |boundary| + 2
    {
      "--" + boundary
    }

    function Terminator(): (s: bytes)
      ensures |s| == |boundary| + 4
    {
      "--" + boundary + "--"
    }
  }

  /** The generator between two pieces. */
  datatype Progress = Progress(
    yielded: seq<PartState>, part: PartState, memUsed: nat, diskUsed: nat, isTail: bool)

  const START := Progress([], EMPTY_PART, 0, 0, false)

  /** The parts yielded, and the exception that ended the iteration, if any. */
  datatype Outcome = Outcome(parts: seq<PartState>, error: Option<Error>)

  datatype StepResult = Continue(st: Progress) | Finished(outcome: Outcome)

  predicate IsBuffered(p: PartState) {
    p.body.Some? && !p.body.value.onDisk
  }

  function Size(p: PartState): nat {
    if p.body.Some? then |p.body.value.content| else 0
  }

  /** The limits tested after each line that was fed. */
  function OverLimit(part: PartState, memUsed: nat, diskUsed: nat, lim: Limits): Option<Error> {
    if IsBuffered(part) then if Size(part) + memUsed > lim.memLimit then Some(MemoryLimit) else None
    else if Size(part) + diskUsed > lim.diskLimit then Some(DiskLimit)
    else None
  }

  /** One turn of the main loop. */
  function Step(st: Progress, line: bytes, nl: bytes, c: Config): StepResult {
    if line == c.Terminator() && !st.isTail then
      if st.part.body == None then Finished(Outcome(st.yielded, Some(AttributeError)))
      else Finished(Outcome(st.yielded + [st.part], None))
    else if line == c.Separator() && !st.isTail then
      if st.part.body == None then Finished(Outcome(st.yielded, Some(AttributeError)))
      else
        var mem := if IsBuffered(st.part) then st.memUsed + Size(st.part) else st.memUsed;
        var disk := if IsBuffered(st.part) then st.diskUsed else st.diskUsed + Size(st.part);
        Continue(Progress(st.yielded + [st.part], EMPTY_PART, mem, disk, false))
    else FeedStep(st, line, nl, c.limits)
  }

  /** A line that is no boundary is fed to the part, and then the limits are tested. */
  function FeedStep(st: Progress, line: bytes, nl: bytes, lim: Limits): StepResult {
    match Feed(st.part, line, nl, lim)
    case Failure(e) => Finished(Outcome(st.yielded, Some(e)))
    case Success(p) =>
      var over := OverLimit(p, st.memUsed, st.diskUsed, lim);
      if over.Some? then Finished(Outcome(st.yielded, over))
      else Continue(Progress(st.yielded, p, st.memUsed, st.diskUsed, nl == []))
  }

  /** The main loop over the pieces left; `last` is the text of the last piece seen. */
  function Run(ps: seq<bytes>, last: bytes, st: Progress, c: Config): Outcome
    decreases |ps|, 0
  {
    if ps == [] then
      Outcome(st.yielded, if last != c.Terminator() then Some(UnexpectedEnd) else None)
    else
      RunFrom(Text(ps[0]), Ending(ps[0]), ps[1..], st, c)
  }

  function RunFrom(line: bytes, nl: bytes, ps: seq<bytes>, st: Progress, c: Config): Outcome
    decreases |ps|, 1
  {
    match Step(st, line, nl, c)
    case Finished(o) => o
    case Continue(st') => Run(ps, line, st', c)
  }

  /** The search of the first boundary, from a line with that text on. */
  function FirstBoundary(text: bytes, ps: seq<bytes>, c: Config): Outcome
    decreases ps
  {
    if text == [] then
      if ps == [] then Outcome([], Some(NoFirstBoundary)) else FirstBoundary(Text(ps[0]), ps[1..], c)
    else if text != c.Separator() then Outcome([], Some(NoFirstBoundary))
    else Run(ps, text, START, c)
  }

  /** What the parser makes of a list of pieces. */
  function ParsePieces(ps: seq<bytes>, c: Config): Outcome {
    if ps == [] then Outcome([], Some(IndexError)) else FirstBoundary(Text(ps[0]), ps[1..], c)
  }

  /** What the parser makes of a byte string. */
  function Parse(content: bytes, c: Config): Outcome
    requires c.Accepted()
  {
    ParsePieces(Pieces(content, c.limits.bufferSize), c)
  }

  // ----- the parser object

  /** The objects show these states, one for one. */
  ghost predicate Shows(parts: seq<MultipartPart>, states: seq<PartState>)
    reads parts, set p | p in parts :: p.file
  {
    |parts| == |states| && forall i | 0 <= i < |parts| :: parts[i].View() == states[i]
  }

  /** The local state of the generator's main loop. */
  class PartLoop {
    const config: Config
    var parts: seq<MultipartPart>
    var part: MultipartPart
    var memUsed: nat
    var diskUsed: nat
    var isTail: bool
    ghost var yielded: seq<PartState>
    ghost var Repr: set<object>

    ghost predicate Valid()
      reads this, Repr
    {
      && this in Repr && part in Repr && (part.file != null ==> part.file in Repr)
      && config.Accepted() && part.limits == config.limits
      && part.Valid() && part.AtEnd()
      && |parts| == |yielded|
      && forall i | 0 <= i < |parts| :: Handed(parts[i], yielded[i])
    }

    /** A part that was handed out is not the one being fed. */
    ghost predicate Handed(p: MultipartPart, state: PartState)
      reads this, part, Repr
    {
      && p in Repr && p != part && p.file != null && p.file in Repr && p.file != part.file
      && p.View() == state
    }

    ghost function State(): Progress
      requires Valid()
      reads this, Repr
    {
      Progress(yielded, part.View(), memUsed, diskUsed, isTail)
    }

    constructor (config: Config)
      requires config.Accepted()
      ensures Valid() && fresh(Repr)
      ensures State() == START && this.config == config
    {
      this.config := config;
      parts, yielded, memUsed, diskUsed, isTail := [], [], 0, 0, false;
      part := new MultipartPart(config.limits);
      Repr := {this, part};
    }

    /** The loop body. */
    method Turn(line: bytes, nl: bytes) returns (ended: bool, error: Option<Error>)
      requires Valid()
      modifies Repr
      ensures fresh(Repr - old(Repr))
      ensures match Step(old(State()), line, nl, config)
              case Continue(st) => !ended && Valid() && State() == st
              case Finished(o) => ended && error == o.error && Shows(parts, o.parts)
    {
      error := None;
      if line == config.Terminator() && !isTail {
        if part.file == null {
          return true, Some(AttributeError);
        }
        part.file.Seek(0);
        parts := parts + [part];
        return true, None;
      } else if line == config.Separator() && !isTail {
        if part.file == null {
          return true, Some(AttributeError);
        }
        if part.IsBuffered() {
          memUsed := memUsed + part.size;
        } else {
          diskUsed := diskUsed + part.size;
        }
        Yield();
        return false, None;
      } else {
        error := FeedPart(line, nl);
        return error.Some?, error;
      }
    }

    method FeedPart(line: bytes, nl: bytes) returns (error: Option<Error>)
      requires Valid()
      modifies `isTail, `Repr, part, part.file
      ensures Valid() && fresh(Repr - old(Repr))
      ensures match FeedStep(old(State()), line, nl, config.limits)
              case Continue(st) => error == None && State() == st
              case Finished(o) => error.Some? && error == o.error && yielded == o.parts
    {
      isTail := nl == [];
      error := part.FeedLine(line, nl);
      if part.file != null {
        Repr := Repr + {part.file};
      }
      if error == None {
        if part.IsBuffered() {
          if part.size + memUsed > config.limits.memLimit {
            error := Some(MemoryLimit);
          }
        } else if part.size + diskUsed > config.limits.diskLimit {
          error := Some(DiskLimit);
        }
      }
    }

    /** The part is rewound and handed out; a new one takes its place. */
    method Yield()
      requires Valid() && part.file != null
      modifies `parts, `part, `yielded, `Repr, part.file`pos
      ensures Valid() && fresh(Repr - old(Repr))
      ensures yielded == old(yielded + [part.View()]) && parts == old(parts + [part])
      ensures part.View() == EMPTY_PART
    {
      part.file.Seek(0);
      parts, yielded := parts + [part], yielded + [part.View()];
      part := new MultipartPart(config.limits);
      Repr := Repr + {part};
    }
  }

  class MultipartParser {
    const config: Config
    const stream: Stream
    const contentLength: int

    /** `__init__`: the limits are lowered to one another, and a boundary too long is refused. */
    static method Create(stream: Stream, boundary: bytes, contentLength: int, limits: Limits)
      returns (r: Result<MultipartParser, Error>)
      ensures var mem := if limits.memLimit <= limits.diskLimit then limits.memLimit else limits.diskLimit;
              var buf := if limits.bufferSize <= mem then limits.bufferSize else mem;
              if buf < |boundary| + 6 then r == Failure(BoundaryTooLong)
              else && r.Success? && fresh(r.value) && r.value.stream == stream
                   && r.value.contentLength == contentLength
                   && r.value.config == Config(boundary, limits.(memLimit := mem, bufferSize := buf))
                   && r.value.config.Accepted()
    {
      var mem := if limits.memLimit <= limits.diskLimit then limits.memLimit else limits.diskLimit;
      var buf := if limits.bufferSize <= mem then limits.bufferSize else mem;
      if buf < |boundary| + 6 {
        return Failure(BoundaryTooLong);
      }
      var p := new MultipartParser(stream, contentLength,
          Config(boundary, limits.(memLimit := mem, bufferSize := buf)));
      return Success(p);
    }

    constructor (stream: Stream, contentLength: int, config: Config)
      requires config.Accepted()
      ensures this.stream == stream && this.contentLength == contentLength && this.config == config
    {
      this.stream, this.contentLength, this.config := stream, contentLength, config;
    }

    /** `_iterparse`, drained: the parts it yields and the exception it ends with.
        They are a function of the visible bytes, however the stream serves them. */
    method IterParse() returns (parts: seq<MultipartPart>, error: Option<Error>)
      requires config.Accepted()
      modifies stream
      ensures var o := Parse(Visible(old(stream.rest), contentLength), config);
              error == o.error && Shows(parts, o.parts)
    {
      parts := [];
      var lines := new LineIter(stream, contentLength, config.limits.bufferSize);
      ghost var o := Parse(Visible(stream.rest, contentLength), config);
      var item := lines.Next();
      if item == NothingRead {
        return parts, Some(IndexError);
      }
      while item.text == []
        invariant lines.Valid() && lines.stream == stream && !lines.Fresh()
        invariant item.Line? && o == FirstBoundary(item.text, lines.Ahead(), config)
        decreases |lines.Ahead()|
      {
        item := lines.Next();
        if item == Stop {
          return parts, Some(NoFirstBoundary);
        }
      }
      if item.text != config.Separator() {
        return parts, Some(NoFirstBoundary);
      }
      parts, error := MainLoop(lines, item.text, o);
    }

    method MainLoop(lines: LineIter, text: bytes, ghost o: Outcome)
      returns (parts: seq<MultipartPart>, error: Option<Error>)
      requires config.Accepted() && lines.Valid() && lines.stream == stream && !lines.Fresh()
      requires o == Run(lines.Ahead(), text, START, config)
      modifies stream, lines
      ensures error == o.error && Shows(parts, o.parts)
    {
      hide Step;
      var line := text;
      var loop := new PartLoop(config);
      while true
        invariant lines.Valid() && lines.stream == stream && !lines.Fresh()
        invariant loop.Valid() && loop.config == config && fresh(loop.Repr)
        invariant o == Run(lines.Ahead(), line, loop.State(), config)
        decreases |lines.Ahead()|
      {
        var item := lines.Next();
        if item == Stop {
          error := if line != config.Terminator() then Some(UnexpectedEnd) else None;
          return loop.parts, error;
        }
        line := item.text;
        var ended;
        ended, error := loop.Turn(line, item.nl);
        if ended {
          return loop.parts, error;
        }
      }
    }
  }
}
