/** `MultipartParser._lineiter`: the generator that turns reads of arbitrary sizes into pieces of lines. */
module LineIteration {
  import opened Lines
  import opened Sequences

  /** A file-like stream of which only `read` is used. */
  class Stream {
    var rest: bytes

    constructor (content: bytes)
      ensures rest == content
    {
      rest := content;
    }

    /** At least one byte as long as some are asked for and left; how many is not the caller's choice. */
    method Read(size: nat) returns (data: bytes)
      modifies this
      ensures data + rest == old(rest) && |data| <= size
      ensures data == [] <==> size == 0 || old(rest) == []
    {
      if size == 0 || rest == [] {
        data := [];
      } else {
        var n :| 1 <= n <= size && n <= |rest|;
        data, rest := rest[..n], rest[n..];
      }
    }
  }

  /** What the generator answers: a line and its ending, the end, or that
      there was nothing to read at all (`lines[0]` raises IndexError). */
  datatype Item = Line(text: bytes, nl: bytes) | Stop | NothingRead

  /** The bytes that a reader may see: all of them, or the first `maxread`. */
  function Visible(content: bytes, maxread: int): bytes {
    if 0 <= maxread <= |content| then content[..maxread] else content
  }

  /** The lines already cut, then the pieces of what is buffered and still to be read. */
  ghost function ToCome(lines: seq<bytes>, done: bool, buffer: bytes, unseen: bytes, bs: nat): seq<bytes>
    requires bs >= 2
  {
    lines + if done then [] else Pieces(buffer + unseen, bs)
  }

  class LineIter {
    const stream: Stream
    const maxbuf: nat
    var maxread: int
    var buffer: bytes
    var lines: seq<bytes>
    var done: bool

    ghost predicate Valid()
      reads this
    {
      && maxbuf >= 2
      && (buffer != [] ==> LineEnd(buffer) == |buffer| <= maxbuf)
      && (buffer == [] ==> lines == [])
      && (forall i | 0 <= i < |lines| :: lines[i] != [])
    }

    /** Nothing has been read yet. */
    ghost predicate Fresh()
      reads this
    {
      !done && buffer == []
    }

    /** The pieces still to come. */
    ghost function Ahead(): (ps: seq<bytes>)
      requires Valid()
      reads this, stream
    {
      ToCome(lines, done, buffer, Visible(stream.rest, maxread), maxbuf)
    }

    constructor (stream: Stream, contentLength: int, bufferSize: nat)
      requires bufferSize >= 2
      ensures Valid() && Fresh() && this.stream == stream && maxbuf == bufferSize
      ensures Ahead() == Pieces(Visible(stream.rest, contentLength), bufferSize)
    {
      this.stream, maxbuf, maxread := stream, bufferSize, contentLength;
      buffer, lines, done := [], [], false;
      new;
      var unseen := Visible(stream.rest, contentLength);
      assert [] + unseen == unseen;
    }

    /** One turn of the generator's loop, up to its yields. What is still to come does not change. */
    method Refill() returns (empty: bool)
      requires Valid() && lines == [] && !done
      modifies this, stream
      ensures Valid() && Ahead() == old(Ahead())
      ensures empty <==> old(Fresh() && Ahead() == [])
      ensures empty ==> done && lines == []
      ensures |stream.rest| <= old(|stream.rest|)
      ensures !empty ==> !Fresh() && (done || |stream.rest| < old(|stream.rest|))
    {
      ghost var unseen := Visible(stream.rest, maxread);
      var data := stream.Read(if maxread < 0 || maxbuf <= maxread then maxbuf else maxread);
      maxread := maxread - |data|;
      ghost var later := Visible(stream.rest, maxread);
      assert data + later == unseen;
      if buffer + data == [] {
        done := true;
        return true;
      }
      var cut := CutLines(buffer + data, maxbuf);
      RefillKeepsPieces(buffer, data, later, maxbuf, cut);
      if data != [] {
        buffer, lines := Last(cut), Init(cut);
      } else {
        lines, done := cut, true;
      }
      return false;
    }

    /** One step of the generator. Whatever the sizes of the reads, the next piece comes out. */
    method Next() returns (r: Item)
      requires Valid()
      modifies this, stream
      ensures Valid()
      ensures old(Ahead()) != [] ==>
                && r == Line(Text(old(Ahead())[0]), Ending(old(Ahead())[0]))
                && Ahead() == old(Ahead())[1..]
                && !Fresh()
      ensures old(Ahead()) == [] ==>
                && r == (if old(Fresh()) then NothingRead else Stop)
                && Ahead() == [] && done
    {
      while lines == [] && !done
        invariant Valid() && Ahead() == old(Ahead())
        invariant Fresh() ==> old(Fresh())
        invariant !Fresh() && Ahead() == [] ==> !old(Fresh())
        decreases |stream.rest|, !done
      {
        var empty := Refill();
        if empty {
          return NothingRead;
        }
      }
      if lines == [] {
        return Stop;
      }
      var line := lines[0];
      TailOfConcat(lines, done, buffer, Visible(stream.rest, maxread), maxbuf);
      lines := lines[1..];
      r := Line(Text(line), Ending(line));
    }
  }

  /** The first of the lines read is cut in two when it is too long,
      and then not between a CR and its LF. */
  function CutFirst(lines: seq<bytes>, bs: nat): seq<bytes>
    requires lines != [] && bs >= 2
  {
    var line := lines[0];
    if |line| <= bs then lines
    else
      var splitpos := if |line| == bs + 1 && CrlfAt(line, |line|) then bs - 1 else bs;
      [line[..splitpos], line[splitpos..]] + lines[1..]
  }

  function CutLines(s: bytes, bs: nat): seq<bytes>
    requires s != [] && bs >= 2
  {
    CutFirst(SplitLines(s), bs)
  }

  lemma TailOfConcat(lines: seq<bytes>, done: bool, buffer: bytes, unseen: bytes, bs: nat)
    requires lines != [] && bs >= 2
    ensures ToCome(lines, done, buffer, unseen, bs) != []
    ensures ToCome(lines, done, buffer, unseen, bs)[0] == lines[0]
    ensures ToCome(lines, done, buffer, unseen, bs)[1..] == ToCome(lines[1..], done, buffer, unseen, bs)
  {
  }

  /** Handing out all lines but the last and keeping the last for later, or all at the end,
      leaves the pieces to come the same. */
  lemma {:induction false} RefillKeepsPieces(b: bytes, d: bytes, later: bytes, bs: nat, cut: seq<bytes>)
    requires bs >= 2 && |b| <= bs && |d| <= bs && (b != [] ==> LineEnd(b) == |b|)
    requires b + d != [] && cut == CutLines(b + d, bs)
    ensures cut != [] && forall i | 0 <= i < |cut| :: cut[i] != []
    ensures Last(cut) != [] && LineEnd(Last(cut)) == |Last(cut)| <= bs
    ensures ToCome(Init(cut), false, Last(cut), later, bs) == ToCome([], false, b, d + later, bs)
    ensures later == [] ==> ToCome(cut, true, b, later, bs) == ToCome([], false, b, d + later, bs)
  {
    LinesArePieces(b, d, bs);
    HandOut(b + d, later, bs, cut);
    Assoc(b, d, later);
  }

  lemma {:induction false} HandOut(s: bytes, later: bytes, bs: nat, cut: seq<bytes>)
    requires bs >= 2 && s != [] && cut == Pieces(s, bs)
    ensures forall i | 0 <= i < |cut| :: cut[i] != []
    ensures Last(cut) != [] && LineEnd(Last(cut)) == |Last(cut)| <= bs
    ensures ToCome(Init(cut), false, Last(cut), later, bs) == ToCome([], false, s, later, bs)
    ensures later == [] ==> cut + [] == ToCome([], false, s, later, bs)
  {
    PiecesExtend(s, later, bs);
    LastPieceIsOneLine(s, bs);
    var all := Pieces(s + later, bs);
    assert [] + all == all;
    assert s + [] == s;
  }

  /** That list is exactly the list of pieces: a single cut is enough. */
  lemma {:induction false} LinesArePieces(b: bytes, d: bytes, bs: nat)
    requires bs >= 2 && b + d != [] && |b| <= bs && |d| <= bs
    requires b != [] ==> LineEnd(b) == |b|
    ensures CutLines(b + d, bs) == Pieces(b + d, bs)
  {
    var s := b + d;
    if b != [] {
      LineEndGrows(b, d);
    }
    CutFirstGivesPieces(s, bs, LineEnd(s), Cut(s, bs));
  }

  lemma {:induction false} CutFirstGivesPieces(s: bytes, bs: nat, n: nat, c: nat)
    requires s != [] && bs >= 2 && n == LineEnd(s) && c == Cut(s, bs)
    requires n <= 2 * bs && |s| - n <= bs
    ensures CutFirst(SplitLines(s), bs) == Pieces(s, bs)
  {
    ShortPieces(s[n..], bs);
    SplitFirst(s, n);
    PiecesFirst(s, bs, c);
    var line := s[..n];
    CutFirstCons(line, SplitLines(s[n..]), bs, c);
    if c < n {
      RestOfFirstLine(s, bs, n, c);
    }
  }

  lemma CutFirstCons(line: bytes, rest: seq<bytes>, bs: nat, c: nat)
    requires bs >= 2
    requires c == if |line| <= bs then |line| else if |line| == bs + 1 && CrlfAt(line, |line|) then bs - 1 else bs
    ensures CutFirst([line] + rest, bs) == if c == |line| then [line] + rest else [line[..c]] + ([line[c..]] + rest)
  {
  }

  lemma {:induction false} RestOfFirstLine(s: bytes, bs: nat, n: nat, c: nat)
    requires s != [] && bs >= 2 && n == LineEnd(s) && c == Cut(s, bs)
    requires c < n <= c + bs
    ensures Pieces(s[c..], bs) == [s[..n][c..]] + Pieces(s[n..], bs) && s[..n][..c] == s[..c]
  {
    CutKeepsCrlf(s, bs);
    LineEndDrop(s, c);
    SlicesOfDrop(s, c, n);
    LineThatFits(s[c..], bs, n - c);
  }

  lemma {:induction false} LineThatFits(t: bytes, bs: nat, n: nat)
    requires t != [] && bs >= 2 && n == LineEnd(t) <= bs
    ensures Pieces(t, bs) == [t[..n]] + Pieces(t[n..], bs)
  {
    PiecesFirst(t, bs, n);
  }

  lemma SlicesOfDrop(s: bytes, c: nat, n: nat)
    requires c <= n <= |s|
    ensures s[c..][..n - c] == s[..n][c..] && s[c..][n - c..] == s[n..] && s[..n][..c] == s[..c]
  {
  }
}
