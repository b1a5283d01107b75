/** Splitting a text at a separator and joining pieces with it. */
module Text {

  predicate Lacks(s: string, sep: char) { sep !in s }

  predicate AllLack(pieces: seq<string>, sep: char) { forall i | 0 <= i < |pieces| :: Lacks(pieces[i], sep) }

  /** `strings.Split`: the pieces between the separators. */
  function Split(s: string, sep: char): (pieces: seq<string>)
    ensures pieces != []
  {
    if s == "" then [""]
    else
      var rest := Split(s[1..], sep);
      if s[0] == sep then [""] + rest else [[s[0]] + rest[0]] + rest[1..]
  }

  /** Every piece preceded by the separator. */
  function Path(pieces: seq<string>, sep: char): string {
    if pieces == [] then "" else [sep] + (pieces[0] + Path(pieces[1..], sep))
  }

  /** `strings.Join`: the separator between any two pieces. */
  function Join(pieces: seq<string>, sep: char): string
    requires pieces != []
  {
    pieces[0] + Path(pieces[1..], sep)
  }

  lemma JoinOne(piece: string, sep: char)
    ensures Join([piece], sep) == piece
  {
  }

  lemma JoinStep(piece: string, pieces: seq<string>, sep: char)
    requires pieces != []
    ensures Join([piece] + pieces, sep) == piece + ([sep] + Join(pieces, sep))
  {
    assert ([piece] + pieces)[1..] == pieces;
  }

  lemma {:induction false} PathConcat(a: seq<string>, b: seq<string>, sep: char)
    ensures Path(a + b, sep) == Path(a, sep) + Path(b, sep)
  {
    if a == [] {
      assert a + b == b;
    } else {
      assert (a + b)[1..] == a[1..] + b;
      PathConcat(a[1..], b, sep);
    }
  }

  /** The first piece of a string ends at its first separator. */
  lemma {:induction false} SplitFirst(piece: string, rest: string, sep: char)
    requires Lacks(piece, sep)
    requires rest == "" || rest[0] == sep
    ensures Split(piece + rest, sep) == [piece] + if rest == "" then [] else Split(rest[1..], sep)
  {
    if piece == "" {
      assert piece + rest == rest;
    } else {
      assert (piece + rest)[1..] == piece[1..] + rest;
      assert (piece + rest)[0] == piece[0] != sep;
      SplitFirst(piece[1..], rest, sep);
      assert [piece[0]] + piece[1..] == piece;
    }
  }

  lemma PathHead(pieces: seq<string>, sep: char)
    requires pieces != []
    ensures Path(pieces, sep)[1..] == pieces[0] + Path(pieces[1..], sep)
  {
  }

  lemma PathTail(pieces: seq<string>, tail: string, sep: char)
    requires pieces != []
    ensures (Path(pieces, sep) + tail)[1..] == pieces[0] + (Path(pieces[1..], sep) + tail)
  {
    DropFirst(pieces[0], Path(pieces[1..], sep), tail, sep);
  }

  lemma DropFirst(a: string, b: string, c: string, sep: char)
    ensures ([sep] + (a + b) + c)[1..] == a + (b + c)
  {
    assert [sep] + (a + b) + c == [sep] + (a + (b + c));
  }

  lemma PathStart(pieces: seq<string>, tail: string, sep: char)
    requires pieces != []
    ensures Path(pieces, sep) + tail != "" && (Path(pieces, sep) + tail)[0] == sep
  {
  }

  /** The pieces of a tail that is empty or starts with a separator. */
  function TailPieces(tail: string, sep: char): seq<string> {
    if tail == "" then [] else Split(tail[1..], sep)
  }

  lemma {:induction false} SplitPath(pieces: seq<string>, tail: string, sep: char)
    requires pieces != [] && AllLack(pieces, sep)
    requires tail == "" || tail[0] == sep
    ensures Split((Path(pieces, sep) + tail)[1..], sep) == pieces + TailPieces(tail, sep)
  {
    var rest := Path(pieces[1..], sep) + tail;
    PathTail(pieces, tail, sep);
    if |pieces| > 1 {
      PathStart(pieces[1..], tail, sep);
      SplitFirst(pieces[0], rest, sep);
      SplitPath(pieces[1..], tail, sep);
      Reassociate(pieces, TailPieces(tail, sep));
    } else {
      assert rest == tail;
      SplitFirst(pieces[0], tail, sep);
      assert pieces == [pieces[0]];
    }
  }

  lemma Reassociate(pieces: seq<string>, more: seq<string>)
    requires pieces != []
    ensures [pieces[0]] + (pieces[1..] + more) == pieces + more
  {
  }

  lemma {:induction false} PathSplit(s: string, sep: char)
    ensures Path(Split(s, sep), sep) == [sep] + s
    ensures AllLack(Split(s, sep), sep)
  {
    if s != "" {
      PathSplit(s[1..], sep);
      var pieces, rest := Split(s, sep), Split(s[1..], sep);
      PathHead(rest, sep);
      PathHead(pieces, sep);
      assert Path(rest, sep)[1..] == s[1..];
      if s[0] == sep {
        assert pieces[1..] == rest && pieces[0] == "";
        assert "" + Path(rest, sep) == s;
      } else {
        assert pieces[1..] == rest[1..] && pieces[0] == [s[0]] + rest[0];
        assert ([s[0]] + rest[0]) + Path(rest[1..], sep) == [s[0]] + (rest[0] + Path(rest[1..], sep)) == s;
      }
    }
  }

  /** The pieces of a text are the ones that lack the separator and join to the text. */
  lemma SplitExactly(s: string, pieces: seq<string>, sep: char)
    ensures Split(s, sep) == pieces <==> pieces != [] && AllLack(pieces, sep) && Join(pieces, sep) == s
  {
    PathSplit(s, sep);
    PathHead(Split(s, sep), sep);
    if pieces != [] && AllLack(pieces, sep) && Join(pieces, sep) == s {
      SplitPath(pieces, "", sep);
      PathHead(pieces, sep);
      assert Path(pieces, sep) + "" == Path(pieces, sep) && pieces + TailPieces("", sep) == pieces;
    }
  }
}
