/** `MultipartPart`: one part of a multipart message while it is being fed line by line. */
module MultipartParts {
  import opened Lines
  import opened Sequences
  import opened Wrappers

  datatype Error =
    | BoundaryTooLong | NoFirstBoundary | UnexpectedEnd | MemoryLimit | DiskLimit
    | EndOfLineInHeader | NoColon | NoDisposition | BodyTooLong
    | ValueError      // `int()` of a Content-Length that is no number
    | AttributeError  // `part.file.seek(0)` on a part whose headers never ended
    | IndexError      // nothing to read at all

  type Header = (string, string)

  /** What the body of a part is: bytes written, line ending held back, where they are kept. */
  datatype Body = Body(content: bytes, pending: bytes, onDisk: bool, contentLength: int)

  datatype PartState = PartState(headers: seq<Header>, body: Option<Body>)

  const EMPTY_PART := PartState([], None)

  datatype Limits = Limits(
    bufferSize: nat,
    memfileLimit: nat,
    memLimit: nat,
    diskLimit: nat,
    toInt: string -> Option<int>) // Python's `int()`, None for its ValueError

  // ----- headers

  /** `str.isspace` on latin1 characters. */
  predicate IsSpace(c: char) {
    c in "\t\n\U{0b}\U{0c}\r\U{1c}\U{1d}\U{1e}\U{1f} \U{85}\U{a0}"
  }

  function StripLeft(s: string): string {
    if s != [] && IsSpace(s[0]) then StripLeft(s[1..]) else s
  }

  function StripRight(s: string): string {
    if s != [] && IsSpace(s[|s| - 1]) then StripRight(s[..|s| - 1]) else s
  }

  function Strip(s: string): string {
    StripRight(StripLeft(s))
  }

  /** Position of the first colon, or the length of `s`. */
  function Colon(s: string): (k: nat)
    ensures k <= |s| && (k < |s| ==> s[k] == ':')
  {
    if s == [] || s[0] == ':' then 0 else 1 + Colon(s[1..])
  }

  function LowerChar(c: char): char {
    if 'A' <= c <= 'Z' then c - 'A' + 'a' else c
  }

  function Lower(s: string): string {
    seq(|s|, i requires 0 <= i < |s| => LowerChar(s[i]))
  }

  /** `Headers.get`: the first header of that (lower-case) name. */
  function HeaderValue(headers: seq<Header>, name: string): Option<string> {
    if headers == [] then None
    else if Lower(headers[0].0) == name then Some(headers[0].1)
    else HeaderValue(headers[1..], name)
  }

  /** The declared length of the body, -1 when there is none. */
  function DeclaredLength(headers: seq<Header>, lim: Limits): Option<int> {
    match HeaderValue(headers, "content-length")
    case None => Some(-1)
    case Some(v) => lim.toInt(v)
  }

  /** `finish_header`. */
  function FinishHeader(headers: seq<Header>, lim: Limits): Result<PartState, Error> {
    if HeaderValue(headers, "content-disposition") in {None, Some("")} then Failure(NoDisposition)
    else
      match DeclaredLength(headers, lim)
      case None => Failure(ValueError)
      case Some(n) => Success(PartState(headers, Some(Body([], [], false, n))))
  }

  /** `write_header`. */
  function WriteHeader(headers: seq<Header>, line: bytes, nl: bytes, lim: Limits): Result<PartState, Error> {
    if nl == [] then Failure(EndOfLineInHeader)
    else if Strip(line) == [] then FinishHeader(headers, lim)
    else if line[0] in " \t" && headers != [] then
      var h := Last(headers);
      Success(PartState(Init(headers) + [(h.0, h.1 + Strip(line))], None))
    else
      var k := Colon(line);
      if k == |line| then Failure(NoColon)
      else Success(PartState(headers + [(Strip(line[..k]), Strip(line[k + 1..]))], None))
  }

  /** `write_body`. */
  function WriteBody(b: Body, line: bytes, nl: bytes, lim: Limits): Result<Body, Error> {
    if line == [] && nl == [] then Success(b)
    else
      var content := b.content + (b.pending + line);
      if 0 < b.contentLength < |content| then Failure(BodyTooLong)
      else Success(Body(content, nl, b.onDisk || |content| > lim.memfileLimit, b.contentLength))
  }

  /** `feed`. */
  function Feed(p: PartState, line: bytes, nl: bytes, lim: Limits): Result<PartState, Error> {
    match p.body
    case None => WriteHeader(p.headers, line, nl, lim)
    case Some(b) =>
      match WriteBody(b, line, nl, lim)
      case Failure(e) => Failure(e)
      case Success(b') => Success(PartState(p.headers, Some(b')))
  }

  // ----- the objects

  /** A `BytesIO` or, when `onDisk`, a temporary file. */
  class PartFile {
    const onDisk: bool
    var data: bytes
    var pos: nat

    constructor (onDisk: bool)
      ensures data == [] && pos == 0 && this.onDisk == onDisk
    {
      this.onDisk, data, pos := onDisk, [], 0;
    }

    method Seek(p: nat)
      modifies `pos
      ensures pos == p
    {
      pos := p;
    }

    method Read(size: nat) returns (part: bytes)
      modifies `pos
      ensures var from := if old(pos) <= |data| then old(pos) else |data|;
              part == if from + size <= |data| then data[from..from + size] else data[from..]
      ensures pos == old(pos) + |part|
    {
      var from := if pos <= |data| then pos else |data|;
      part := if from + size <= |data| then data[from..from + size] else data[from..];
      pos := pos + |part|;
    }

    method Write(part: bytes)
      requires pos == |data|
      modifies this
      ensures data == old(data) + part && pos == |data|
    {
      data := data + part;
      pos := |data|;
    }
  }

  /** `copy_file`: copies up to `maxread` bytes (all when negative), a buffer at a time. */
  method CopyFile(stream: PartFile, target: PartFile, maxread: int, bufferSize: nat) returns (size: nat)
    requires stream != target && stream.pos <= |stream.data| && target.pos == |target.data|
    modifies stream`pos, target
    ensures size <= |stream.data| - old(stream.pos) && (maxread >= 0 ==> size <= maxread)
    ensures bufferSize > 0 ==> size == |stream.data| - old(stream.pos) || size == maxread
    ensures target.data == old(target.data) + stream.data[old(stream.pos)..old(stream.pos) + size]
    ensures target.pos == |target.data| && stream.pos == old(stream.pos) + size
  {
    size := 0;
    while true
      invariant maxread >= 0 ==> size <= maxread
      invariant old(stream.pos) + size == stream.pos <= |stream.data|
      invariant target.data == old(target.data) + stream.data[old(stream.pos)..stream.pos]
      invariant target.pos == |target.data|
      decreases |stream.data| - size
    {
      var toRead := if maxread < 0 || bufferSize <= maxread - size then bufferSize else maxread - size;
      var part := stream.Read(toRead);
      if part == [] {
        return;
      }
      TakeMore(stream.data, old(stream.pos), stream.pos - |part|, stream.pos, old(target.data));
      target.Write(part);
      size := size + |part|;
    }
  }

  lemma TakeMore(data: bytes, from: nat, mid: nat, to: nat, before: bytes)
    requires from <= mid <= to <= |data|
    ensures (before + data[from..mid]) + data[mid..to] == before + data[from..to]
  {
  }

  class MultipartPart {
    const limits: Limits
    var headerlist: seq<Header>
    var file: PartFile?
    var size: nat
    var buf: bytes
    var contentLength: int

    /** `size` is the length of what was written. */
    ghost predicate Valid()
      reads this, file
    {
      if file == null then size == 0 && buf == [] else size == |file.data|
    }

    /** The file is positioned where writing goes on. */
    ghost predicate AtEnd()
      reads this, file
    {
      file != null ==> file.pos == |file.data|
    }

    ghost function View(): PartState
      reads this, file
    {
      PartState(headerlist,
                if file == null then None else Some(Body(file.data, buf, file.onDisk, contentLength)))
    }

    constructor (limits: Limits)
      ensures Valid() && AtEnd() && View() == EMPTY_PART && file == null && this.limits == limits && size == 0
    {
      this.limits := limits;
      headerlist, file, size, buf, contentLength := [], null, 0, [], -1;
    }

    predicate IsBuffered()
      reads this
    {
      file != null && !file.onDisk
    }

    /** One line or piece of a line; an error stops the whole parse. */
    method FeedLine(line: bytes, nl: bytes) returns (error: Option<Error>)
      requires Valid() && AtEnd() && limits.bufferSize > 0
      modifies this, file
      ensures Valid() && AtEnd()
      ensures file == old(file) || fresh(file)
      ensures match Feed(old(View()), line, nl, limits)
              case Success(p) => error == None && View() == p
              case Failure(e) => error == Some(e)
    {
      if file != null {
        error := WriteBodyLine(line, nl);
      } else {
        error := WriteHeaderLine(line, nl);
      }
    }

    method WriteHeaderLine(line: bytes, nl: bytes) returns (error: Option<Error>)
      requires Valid() && AtEnd() && file == null
      modifies this
      ensures Valid() && AtEnd()
      ensures file == null || fresh(file)
      ensures match WriteHeader(old(headerlist), line, nl, limits)
              case Success(p) => error == None && View() == p
              case Failure(e) => error == Some(e)
    {
      if nl == [] {
        return Some(EndOfLineInHeader);
      }
      if Strip(line) == [] {
        // finish_header
        file := new PartFile(false);
        if HeaderValue(headerlist, "content-disposition") in {None, Some("")} {
          return Some(NoDisposition);
        }
        var n := DeclaredLength(headerlist, limits);
        if n == None {
          return Some(ValueError);
        }
        contentLength := n.value;
      } else if line[0] in " \t" && headerlist != [] {
        var h := Last(headerlist);
        headerlist := Init(headerlist);
        headerlist := headerlist + [(h.0, h.1 + Strip(line))];
      } else {
        var k := Colon(line);
        if k == |line| {
          return Some(NoColon);
        }
        headerlist := headerlist + [(Strip(line[..k]), Strip(line[k + 1..]))];
      }
      return None;
    }

    method WriteBodyLine(line: bytes, nl: bytes) returns (error: Option<Error>)
      requires Valid() && AtEnd() && file != null && limits.bufferSize > 0
      modifies this, file
      ensures Valid() && AtEnd() && file != null && headerlist == old(headerlist)
      ensures file == old(file) || fresh(file)
      ensures match WriteBody(old(View()).body.value, line, nl, limits)
              case Success(b) => error == None && View().body == Some(b)
              case Failure(e) => error == Some(e)
    {
      if line == [] && nl == [] {
        return None;
      }
      size := size + |line| + |buf|;
      file.Write(buf + line);
      buf := nl;
      if contentLength > 0 && size > contentLength {
        return Some(BodyTooLong);
      }
      if size > limits.memfileLimit && !file.onDisk {
        var spilled := new PartFile(true);
        file.Seek(0);
        var _ := CopyFile(file, spilled, size, limits.bufferSize);
        assert spilled.data == file.data;
        file := spilled;
      }
      return None;
    }
  }
}
