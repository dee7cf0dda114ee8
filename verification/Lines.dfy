/** Byte strings cut into lines, as Python's `bytes.splitlines(True)` cuts them,
    and the bounded pieces of lines that the multipart reader hands out.
    One `char` stands for one byte (latin1). */
module Lines {
  import opened Sequences

  type bytes = string

  const CRLF: bytes := "\r\n"

  /** The line ending that a line or a piece of a line carries: CRLF, LF, CR or none. */
  function Ending(s: bytes): (e: bytes)
    ensures |e| <= |s|
  {
    if |s| >= 2 && s[|s| - 2] == '\r' && s[|s| - 1] == '\n' then CRLF
    else if |s| >= 1 && s[|s| - 1] == '\n' then "\n"
    else if |s| >= 1 && s[|s| - 1] == '\r' then "\r"
    else ""
  }

  /** The line without its ending. */
  function Text(s: bytes): (t: bytes)
  {
    s[..|s| - |Ending(s)|]
  }

  lemma TextAndEnding(s: bytes)
    ensures Text(s) + Ending(s) == s
  {
  }

  /** Length of the first line of `s`, its ending included. */
  function LineEnd(s: bytes): (n: nat)
    requires s != []
    ensures 1 <= n <= |s|
  {
    if s[0] == '\n' then 1
    else if s[0] == '\r' then if |s| > 1 && s[1] == '\n' then 2 else 1
    else if |s| == 1 then 1
    else 1 + LineEnd(s[1..])
  }

  /** `s.splitlines(True)` on a byte string. */
  function SplitLines(s: bytes): (ls: seq<bytes>)
  {
    if s == [] then [] else [s[..LineEnd(s)]] + SplitLines(s[LineEnd(s)..])
  }

  function Concat(ls: seq<bytes>): bytes {
    if ls == [] then [] else ls[0] + Concat(ls[1..])
  }

  /** The first `n` bytes end with CRLF. */
  predicate CrlfAt(s: bytes, n: nat)
    requires n <= |s|
  {
    n >= 2 && s[n - 2] == '\r' && s[n - 1] == '\n'
  }

  /** Where the reader cuts the first line of `s` when it may hand out at most `bs` bytes:
      a line that fits is not cut, and a CRLF is never cut in two. */
  function Cut(s: bytes, bs: nat): (c: nat)
    requires s != [] && bs >= 2
    ensures 1 <= c <= LineEnd(s) && c <= bs
  {
    var n := LineEnd(s);
    if n <= bs then n
    else if n == bs + 1 && CrlfAt(s, n) then bs - 1
    else bs
  }

  /** All the pieces of `s`: a function of the bytes and of the buffer size only. */
  function Pieces(s: bytes, bs: nat): (ps: seq<bytes>)
    requires bs >= 2
    ensures forall p <- ps :: 1 <= |p| <= bs
    ensures s != [] ==> ps != []
  {
    if s == [] then []
    else [s[..Cut(s, bs)]] + Pieces(s[Cut(s, bs)..], bs)
  }

  /** Pieces without an ending are glued to their successor. */
  function Glue(ps: seq<bytes>): (ls: seq<bytes>)
    ensures ps != [] ==> ls != []
  {
    if |ps| <= 1 then ps
    else
      var g := Glue(ps[1..]);
      if Ending(ps[0]) == "" then [ps[0] + g[0]] + g[1..] else [ps[0]] + g
  }

  // ----- the first line

  /** The first line ends at the first line ending, and nowhere before. */
  lemma {:induction false} LineEndOfPrefix(s: bytes, n: nat)
    requires s != [] && n == LineEnd(s)
    ensures LineEnd(s[..n]) == n
    ensures n < |s| ==> Ending(s[..n]) != ""
  {
    if n >= 2 && s[0] != '\r' {
      LineEndOfPrefix(s[1..], n - 1);
      assert s[..n][1..] == s[1..][..n - 1];
    }
  }

  /** A byte of the first line that is neither its last nor the CR of its CRLF is no line ending. */
  lemma {:induction false} LineInterior(s: bytes, k: nat)
    requires s != [] && k < LineEnd(s) - 1
    ensures s[k] != '\n'
    ensures s[k] == '\r' ==> k == LineEnd(s) - 2 && s[k + 1] == '\n'
  {
    if k > 0 {
      LineInterior(s[1..], k - 1);
    }
  }

  /** More bytes do not move the end of a line that is followed by something. */
  lemma {:induction false} LineEndStable(s: bytes, t: bytes)
    requires s != [] && LineEnd(s) < |s|
    ensures LineEnd(s + t) == LineEnd(s)
  {
    if s[0] != '\n' && s[0] != '\r' {
      LineEndStable(s[1..], t);
      assert (s + t)[1..] == s[1..] + t;
    }
  }

  /** More bytes can only make the first line longer, unless it ends with LF. */
  lemma {:induction false} LineEndGrows(s: bytes, t: bytes)
    requires s != [] && LineEnd(s) == |s|
    ensures LineEnd(s + t) >= |s|
    ensures s[|s| - 1] == '\n' ==> LineEnd(s + t) == |s|
    ensures s[|s| - 1] == '\r' ==> LineEnd(s + t) == if t != [] && t[0] == '\n' then |s| + 1 else |s|
    ensures t != [] && Ending(s) == "" ==> LineEnd(s + t) == |s| + LineEnd(t)
  {
    if s[0] != '\n' && s[0] != '\r' {
      if |s| == 1 {
        assert (s + t)[1..] == t;
      } else {
        LineEndGrows(s[1..], t);
        assert (s + t)[1..] == s[1..] + t;
      }
    }
  }

  /** The bytes of a CRLF are never apart: the byte after a line that ends with CR is not LF. */
  lemma {:induction false} NoLfAfterCr(s: bytes)
    requires s != [] && LineEnd(s) < |s| && s[LineEnd(s) - 1] == '\r'
    ensures s[LineEnd(s)] != '\n'
  {
    if s[0] != '\r' {
      NoLfAfterCr(s[1..]);
    }
  }

  lemma DropTwice(s: bytes, k: nat)
    requires 0 < k <= |s|
    ensures s[1..][k - 1..] == s[k..]
  {
  }

  /** Dropping a part of the first line that leaves its CRLF whole leaves the rest of that line first. */
  lemma {:induction false} LineEndDrop(s: bytes, k: nat)
    requires s != [] && k < LineEnd(s)
    requires k == LineEnd(s) - 1 ==> !CrlfAt(s, LineEnd(s))
    ensures LineEnd(s[k..]) == LineEnd(s) - k
    decreases k
  {
    if k > 0 {
      assert s[0] != '\r' && s[0] != '\n';
      LineEndDrop(s[1..], k - 1);
      DropTwice(s, k);
    }
  }

  // ----- pieces

  lemma {:induction false} CutKeepsCrlf(s: bytes, bs: nat)
    requires s != [] && bs >= 2
    ensures Cut(s, bs) == LineEnd(s) - 1 ==> !CrlfAt(s, LineEnd(s))
    ensures Cut(s, bs) < LineEnd(s) ==> Ending(s[..Cut(s, bs)]) == ""
  {
    var n, c := LineEnd(s), Cut(s, bs);
    if c < n {
      LineInterior(s, c - 1);
      assert s[..c][c - 1] == s[c - 1];
    }
  }

  lemma {:induction false} PiecesFirst(s: bytes, bs: nat, c: nat)
    requires s != [] && bs >= 2 && c == Cut(s, bs)
    ensures Pieces(s, bs) == [s[..c]] + Pieces(s[c..], bs)
  {
  }

  lemma PieceAlone(s: bytes, bs: nat)
    requires s != [] && bs >= 2 && Cut(s, bs) == |s|
    ensures Pieces(s, bs) == [s]
  {
    assert s[..|s|] == s && s[|s|..] == [];
    assert Pieces([], bs) == [];
  }

  lemma {:induction false} ConcatPieces(s: bytes, bs: nat)
    requires bs >= 2
    ensures Concat(Pieces(s, bs)) == s
    decreases |s|
  {
    if s != [] {
      ConcatPieces(s[Cut(s, bs)..], bs);
    }
  }

  lemma FirstByte(s: bytes, bs: nat)
    requires s != [] && bs >= 2
    ensures Pieces(s, bs)[0][0] == s[0]
  {
  }

  /** No CRLF is ever cut: a piece that ends with CR is not followed by one that begins with LF. */
  lemma {:induction false} CrlfNeverCut(s: bytes, bs: nat, i: nat)
    requires bs >= 2 && i + 1 < |Pieces(s, bs)| && Ending(Pieces(s, bs)[i]) == "\r"
    ensures Pieces(s, bs)[i + 1][0] != '\n'
    decreases |s|
  {
    var n, c := LineEnd(s), Cut(s, bs);
    PiecesFirst(s, bs, c);
    if i > 0 {
      CrlfNeverCut(s[c..], bs, i - 1);
    } else {
      CutKeepsCrlf(s, bs);
      NoLfAfterCr(s);
      FirstByte(s[c..], bs);
    }
  }

  lemma GlueCons(p: bytes, ps: seq<bytes>)
    ensures ps == [] ==> Glue([p] + ps) == [p]
    ensures ps != [] && Ending(p) == "" ==> Glue([p] + ps) == [p + Glue(ps)[0]] + Glue(ps)[1..]
    ensures ps != [] && Ending(p) != "" ==> Glue([p] + ps) == [p] + Glue(ps)
  {
    assert ([p] + ps)[1..] == ps;
  }

  lemma {:induction false} SplitFirst(s: bytes, n: nat)
    requires s != [] && n == LineEnd(s)
    ensures SplitLines(s) == [s[..n]] + SplitLines(s[n..])
  {
  }

  lemma {:induction false} SplitAfterCut(s: bytes, c: nat)
    requires s != [] && c < LineEnd(s)
    requires c == LineEnd(s) - 1 ==> !CrlfAt(s, LineEnd(s))
    ensures SplitLines(s[c..]) != []
    ensures SplitLines(s) == [s[..c] + SplitLines(s[c..])[0]] + SplitLines(s[c..])[1..]
  {
    var n, rest := LineEnd(s), s[c..];
    LineEndDrop(s, c);
    SplitFirst(s, n);
    SplitFirst(rest, n - c);
    var tail := SplitLines(s[n..]);
    assert rest[n - c..] == s[n..];
    assert SplitLines(rest) == [rest[..n - c]] + tail;
    assert s[..c] + rest[..n - c] == s[..n];
  }

  /** Gluing the pieces gives back exactly the lines. */
  lemma {:induction false} GluePieces(s: bytes, bs: nat)
    requires bs >= 2
    ensures Glue(Pieces(s, bs)) == SplitLines(s)
    decreases |s|
  {
    if s != [] {
      var n, c := LineEnd(s), Cut(s, bs);
      var rest := s[c..];
      GluePieces(rest, bs);
      LineEndOfPrefix(s, n);
      CutKeepsCrlf(s, bs);
      var ps := Pieces(s, bs);
      assert ps == [s[..c]] + Pieces(rest, bs);
      if c < n {
        SplitAfterCut(s, c);
        GlueCons(s[..c], Pieces(rest, bs));
      } else {
        GlueCons(s[..c], Pieces(rest, bs));
      }
    }
  }

  /** A cut that something follows does not depend on what comes later. */
  lemma {:induction false} CutStable(s: bytes, t: bytes, bs: nat)
    requires s != [] && bs >= 2 && Cut(s, bs) < |s|
    ensures Cut(s + t, bs) == Cut(s, bs)
  {
    var n := LineEnd(s);
    if n < |s| {
      LineEndStable(s, t);
    } else {
      LineEndGrows(s, t);
    }
  }

  /** What was handed out stays; the last piece waits for more bytes. */
  lemma {:induction false} PiecesExtend(s: bytes, t: bytes, bs: nat)
    requires s != [] && bs >= 2
    ensures Pieces(s + t, bs) == Init(Pieces(s, bs)) + Pieces(Last(Pieces(s, bs)) + t, bs)
    decreases |s|
  {
    var c := Cut(s, bs);
    if c == |s| {
      PieceAlone(s, bs);
      assert Init([s]) == [] && Last([s]) == s;
    } else {
      CutStable(s, t, bs);
      PiecesExtend(s[c..], t, bs);
      SplitConcat(s, t, c);
      PiecesFirst(s + t, bs, c);
      PiecesFirst(s, bs, c);
      InitLastCons(s[..c], Pieces(s[c..], bs), Pieces(Last(Pieces(s[c..], bs)) + t, bs));
    }
  }

  lemma SplitConcat(s: bytes, t: bytes, c: nat)
    requires c <= |s|
    ensures (s + t)[..c] == s[..c] && (s + t)[c..] == s[c..] + t
  {
  }

  lemma InitLastCons(p: bytes, qs: seq<bytes>, more: seq<bytes>)
    requires qs != []
    ensures Last([p] + qs) == Last(qs)
    ensures Init([p] + qs) + more == [p] + (Init(qs) + more)
  {
  }

  /** A piece is either the end of a line or has no ending; alone it is one line. */
  lemma {:induction false} LastPieceIsOneLine(s: bytes, bs: nat)
    requires s != [] && bs >= 2
    ensures var l := Last(Pieces(s, bs)); l != [] && LineEnd(l) == |l| && |l| <= bs
    decreases |s|
  {
    var c := Cut(s, bs);
    if c == |s| {
      PieceAlone(s, bs);
    } else {
      LastPieceIsOneLine(s[c..], bs);
      PiecesFirst(s, bs, c);
      InitLastCons(s[..c], Pieces(s[c..], bs), []);
    }
  }

  /** Text that fits in the buffer is cut at line ends only. */
  lemma {:induction false} ShortPieces(s: bytes, bs: nat)
    requires bs >= 2 && |s| <= bs
    ensures Pieces(s, bs) == SplitLines(s)
    decreases |s|
  {
    if s != [] {
      ShortPieces(s[LineEnd(s)..], bs);
    }
  }

  lemma {:induction false} ConcatAppend(a: seq<bytes>, b: seq<bytes>)
    ensures Concat(a + b) == Concat(a) + Concat(b)
  {
    if a == [] {
      assert a + b == b;
    } else {
      ConcatAppend(a[1..], b);
      assert (a + b)[1..] == a[1..] + b;
      Assoc(a[0], Concat(a[1..]), Concat(b));
    }
  }
}
