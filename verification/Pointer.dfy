/** How the overlay generator prints the position of a patch, and what RFC 6901 reads back. */
module Pointer {
  import opened Text

  function Annotations(): string { "/metadata/annotations/" }

  // ---------- Printing ----------

  /** The path the walk carries: "/" at the root, and every token followed by a slash. */
  function Render(tokens: seq<string>): string {
    if tokens == [] then "/" else Render(tokens[..|tokens| - 1]) + tokens[|tokens| - 1] + "/"
  }

  /** The trailing slash goes, unless it is all there is. */
  function TrimSlash(path: string): string {
    if |path| > 1 && path[|path| - 1] == '/' then path[..|path| - 1] else path
  }

  /** `strings.Index` */
  function Index(s: string, pattern: string): (i: int)
    ensures i < 0 || (i + |pattern| <= |s| && s[i..i + |pattern|] == pattern)
  {
    if pattern <= s then 0
    else if s == "" then -1
    else var i := Index(s[1..], pattern); if i < 0 then -1 else i + 1
  }

  predicate OccursAt(s: string, pattern: string, i: nat) {
    i + |pattern| <= |s| && s[i..i + |pattern|] == pattern
  }

  /** It finds the first occurrence, if there is one. */
  lemma {:induction false} IndexIsFirst(s: string, pattern: string)
    ensures Index(s, pattern) < 0 <==> forall i: nat :: !OccursAt(s, pattern, i)
    ensures forall i: nat | OccursAt(s, pattern, i) :: 0 <= Index(s, pattern) <= i
  {
    forall i: nat | OccursAt(s, pattern, i) ensures 0 <= Index(s, pattern) <= i {
      if i > 0 {
        assert s[1..][i - 1..i - 1 + |pattern|] == s[i..i + |pattern|];
        assert OccursAt(s[1..], pattern, i - 1);
        IndexIsFirst(s[1..], pattern);
      }
    }
    if Index(s, pattern) >= 0 {
      assert OccursAt(s, pattern, Index(s, pattern));
    }
  }

  /** `strings.ReplaceAll(s, "/", "~1")` */
  function EscapeSlashes(s: string): string {
    if s == "" then "" else (if s[0] == '/' then "~1" else [s[0]]) + EscapeSlashes(s[1..])
  }

  /** Everything after the first "/metadata/annotations/" becomes one escaped token. */
  function PreparePath(path: string): (p: string)
    requires path != ""
  {
    var i := Index(path, Annotations());
    if i >= 0 then
      path[..i + |Annotations()|] + EscapeSlashes(path[i + |Annotations()|..])
    else
      path
  }

  // ---------- Reading ----------

  /** Section 4 of RFC 6901: "~1" stands for a slash and "~0" for a tilde. */
  function Unescape(s: string): string {
    if |s| >= 2 && s[0] == '~' && s[1] == '1' then "/" + Unescape(s[2..])
    else if |s| >= 2 && s[0] == '~' && s[1] == '0' then "~" + Unescape(s[2..])
    else if s == "" then ""
    else [s[0]] + Unescape(s[1..])
  }

  function UnescapeAll(pieces: seq<string>): seq<string> {
    if pieces == [] then [] else [Unescape(pieces[0])] + UnescapeAll(pieces[1..])
  }

  /** Section 3 of RFC 6901: a pointer is a sequence of tokens, each preceded by a slash. */
  function Decode(pointer: string): seq<string>
    requires pointer != "" && pointer[0] == '/'
  {
    UnescapeAll(Split(pointer[1..], '/'))
  }

  /** The tokens that a patch sent for the position `tokens` addresses. */
  function Sent(tokens: seq<string>): seq<string> {
    RenderStartsWithSlash(tokens);
    Decode(PreparePath(TrimSlash(Render(tokens))))
  }

  lemma RenderStartsWithSlash(tokens: seq<string>)
    ensures Render(tokens) != "" && Render(tokens)[0] == '/'
    ensures var trimmed := TrimSlash(Render(tokens));
            trimmed != "" && trimmed[0] == '/' && PreparePath(trimmed) != "" && PreparePath(trimmed)[0] == '/'
  {
  }

  // ---------- Which positions survive the trip ----------

  /** No "~0" and no "~1": a tilde that nothing reads as an escape. */
  predicate Unescaped(s: string) {
    forall i | 0 <= i < |s| - 1 :: s[i] == '~' ==> s[i + 1] != '0' && s[i + 1] != '1'
  }

  predicate AllUnescaped(tokens: seq<string>) { forall i | 0 <= i < |tokens| :: Unescaped(tokens[i]) }

  /** Where the tokens first go through metadata and annotations to something below. */
  function FirstAnnotations(tokens: seq<string>): (i: int)
    ensures i < 0 || i + 2 < |tokens|
  {
    if |tokens| < 3 then -1
    else if tokens[0] == "metadata" && tokens[1] == "annotations" then 0
    else var i := FirstAnnotations(tokens[1..]); if i < 0 then -1 else i + 1
  }

  /** No slash in any token, except in the one token below the first metadata/annotations. */
  predicate Addressable(tokens: seq<string>) {
    var i := FirstAnnotations(tokens);
    if i < 0 then AllLack(tokens, '/')
    else i + 3 == |tokens| && AllLack(tokens[..i + 2], '/')
  }

  lemma {:induction false} RenderIsPath(tokens: seq<string>)
    requires tokens != []
    ensures Render(tokens) == Path(tokens, '/') + "/"
    ensures TrimSlash(Render(tokens)) == Path(tokens, '/')
  {
    var init, last := tokens[..|tokens| - 1], tokens[|tokens| - 1];
    assert tokens == init + [last];
    PathConcat(init, [last], '/');
    assert Path([last], '/') == "/" + last;
    if init != [] {
      RenderIsPath(init);
    }
  }

  /** A search for something that starts with a slash skips a piece without one. */
  lemma {:induction false} IndexSkips(piece: string, rest: string)
    requires Lacks(piece, '/')
    ensures var i := Index(rest, Annotations());
            Index(piece + rest, Annotations()) == if i < 0 then -1 else |piece| + i
  {
    if piece == "" {
      assert piece + rest == rest;
    } else {
      assert (piece + rest)[1..] == piece[1..] + rest;
      assert (piece + rest)[0] == piece[0] != Annotations()[0];
      IndexSkips(piece[1..], rest);
    }
  }

  /** Two strings cut at their first slash agree on a common prefix piece by piece. */
  lemma PieceMatch(expected: string, more: string, piece: string, rest: string)
    requires Lacks(expected, '/') && Lacks(piece, '/')
    requires rest == "" || rest[0] == '/'
    ensures expected + "/" + more <= piece + rest <==> expected == piece && "/" + more <= rest
  {
    var left, right := expected + "/" + more, piece + rest;
    if left <= right {
      assert forall i | 0 <= i < |left| :: left[i] == right[i];
      assert left[|expected|] == '/' && forall i | 0 <= i < |expected| :: left[i] == expected[i] != '/';
      assert (rest != "" ==> right[|piece|] == '/') && forall i | 0 <= i < |piece| :: right[i] == piece[i] != '/';
      assert |expected| == |piece|;
      assert expected == left[..|expected|] == right[..|expected|] == piece;
      assert left[|expected|..] == "/" + more && right[|piece|..] == rest;
    }
  }

  /** A path starts with the pattern "/a/b/" when its first two pieces are a and b and there
      is a third. */
  lemma PatternPrefix(a: string, b: string, pieces: seq<string>)
    requires Lacks(a, '/') && Lacks(b, '/')
    requires pieces != [] && AllLack(pieces, '/')
    ensures "/" + (a + "/" + (b + "/")) <= Path(pieces, '/') <==> |pieces| >= 3 && pieces[0] == a && pieces[1] == b
  {
    var rest := Path(pieces[1..], '/');
    SlashPrefix(a + "/" + (b + "/"), pieces[0] + rest);
    PieceMatch(a, b + "/", pieces[0], rest);
    if |pieces| >= 2 {
      NextPrefix(b, pieces[1..]);
    }
  }

  lemma NextPrefix(b: string, pieces: seq<string>)
    requires Lacks(b, '/')
    requires pieces != [] && AllLack(pieces, '/')
    ensures "/" + (b + "/") <= Path(pieces, '/') <==> |pieces| >= 2 && pieces[0] == b
  {
    var rest := Path(pieces[1..], '/');
    SlashPrefix(b + "/", pieces[0] + rest);
    assert b + "/" == b + "/" + "";
    PieceMatch(b, "", pieces[0], rest);
    assert "/" + "" <= rest <==> rest != "";
  }

  lemma SlashPrefix(a: string, b: string)
    ensures "/" + a <= "/" + b <==> a <= b
  {
    assert ("/" + a)[1..] == a && ("/" + b)[1..] == b;
    if "/" + a <= "/" + b {
      assert a == ("/" + b)[1..][..|a|];
    }
  }

  lemma PatternIsLiteral()
    ensures Annotations() == "/" + ("metadata" + "/" + ("annotations" + "/"))
    ensures Lacks("metadata", '/') && Lacks("annotations", '/')
  {
  }

  lemma AnnotationsPrefix(pieces: seq<string>)
    requires pieces != [] && AllLack(pieces, '/')
    ensures Annotations() <= Path(pieces, '/') <==>
              |pieces| >= 3 && pieces[0] == "metadata" && pieces[1] == "annotations"
  {
    PatternIsLiteral();
    PatternPrefix("metadata", "annotations", pieces);
  }

  lemma {:induction false} IndexOfAnnotations(pieces: seq<string>)
    requires AllLack(pieces, '/')
    ensures var i := FirstAnnotations(pieces);
            Index(Path(pieces, '/'), Annotations()) == if i < 0 then -1 else |Path(pieces[..i], '/')|
  {
    if pieces != [] {
      AnnotationsPrefix(pieces);
      if |pieces| >= 3 && pieces[0] == "metadata" && pieces[1] == "annotations" {
        assert pieces[..0] == [];
      } else {
        IndexOfAnnotations(pieces[1..]);
        PathHead(pieces, '/');
        IndexSkips(pieces[0], Path(pieces[1..], '/'));
        FirstLater(pieces);
      }
    }
  }

  lemma FirstLater(pieces: seq<string>)
    requires pieces != [] && !(|pieces| >= 3 && pieces[0] == "metadata" && pieces[1] == "annotations")
    ensures var i, j := FirstAnnotations(pieces), FirstAnnotations(pieces[1..]);
            && (j < 0 ==> i < 0)
            && (j >= 0 ==> i == j + 1 && |Path(pieces[..i], '/')| == 1 + |pieces[0]| + |Path(pieces[1..][..j], '/')|)
  {
    var j := FirstAnnotations(pieces[1..]);
    if j >= 0 {
      assert pieces[..j + 1][1..] == pieces[1..][..j];
    }
  }

  /** Escaping leaves no slash, and reading it back gives what reading the text itself gives. */
  lemma {:induction false} EscapeRoundTrip(s: string)
    ensures Lacks(EscapeSlashes(s), '/')
    ensures Unescape(EscapeSlashes(s)) == Unescape(s)
    ensures Unescaped(s) ==> Unescape(EscapeSlashes(s)) == s
    decreases |s|
  {
    EscapedReadsTheSame(s);
    ReadingShrinks(s);
    if s != "" {
      EscapeRoundTrip(s[1..]);
    }
  }

  lemma ReadPlain(c: char, rest: string)
    requires c == '~' && rest != "" ==> rest[0] != '0' && rest[0] != '1'
    ensures Unescape([c] + rest) == [c] + Unescape(rest)
  {
    assert ([c] + rest)[1..] == rest;
  }

  lemma ReadEscape(c: char, rest: string)
    requires c == '0' || c == '1'
    ensures Unescape(['~', c] + rest) == [if c == '1' then '/' else '~'] + Unescape(rest)
  {
    assert (['~', c] + rest)[2..] == rest;
  }

  lemma {:induction false} EscapedReadsTheSame(s: string)
    ensures Unescape(EscapeSlashes(s)) == Unescape(s)
    decreases |s|
  {
    if |s| >= 2 && s[0] == '~' && (s[1] == '0' || s[1] == '1') {
      var rest := s[2..];
      EscapedReadsTheSame(rest);
      assert s == ['~', s[1]] + rest && s[1..][1..] == rest;
      assert EscapeSlashes(s) == ['~', s[1]] + EscapeSlashes(rest);
      ReadEscape(s[1], rest);
      ReadEscape(s[1], EscapeSlashes(rest));
    } else if s != "" {
      var rest := s[1..];
      EscapedReadsTheSame(rest);
      assert s == [s[0]] + rest;
      ReadPlain(s[0], rest);
      if s[0] == '/' {
        ReadEscape('1', EscapeSlashes(rest));
      } else {
        ReadPlain(s[0], EscapeSlashes(rest));
      }
    }
  }

  /** Reading a text shortens it exactly when there is an escape in it. */
  lemma {:induction false} ReadingShrinks(s: string)
    ensures if Unescaped(s) then Unescape(s) == s else |Unescape(s)| < |s|
    decreases |s|
  {
    if |s| >= 2 && s[0] == '~' && s[1] in "01" {
      ReadingShrinks(s[2..]);
    } else if s != "" {
      ReadingShrinks(s[1..]);
      if Unescaped(s[1..]) {
        assert Unescaped(s) by {
          assert forall i | 1 <= i < |s| - 1 :: s[i] == s[1..][i - 1] && s[i + 1] == s[1..][i];
        }
      } else {
        var i :| 0 <= i < |s[1..]| - 1 && !(s[1..][i] == '~' ==> s[1..][i + 1] != '0' && s[1..][i + 1] != '1');
        assert s[i + 1] == '~' && (s[i + 2] == '0' || s[i + 2] == '1');
      }
    }
  }

  lemma {:induction false} ReadingAllShrinks(tokens: seq<string>)
    ensures if AllUnescaped(tokens) then UnescapeAll(tokens) == tokens
            else |Path(UnescapeAll(tokens), '/')| < |Path(tokens, '/')|
  {
    if tokens != [] {
      ReadingShrinks(tokens[0]);
      ReadingAllShrinks(tokens[1..]);
      assert tokens == [tokens[0]] + tokens[1..];
    }
  }

  lemma {:induction false} UnescapeAllConcat(a: seq<string>, b: seq<string>)
    ensures UnescapeAll(a + b) == UnescapeAll(a) + UnescapeAll(b)
  {
    if a == [] {
      assert a + b == b;
    } else {
      assert (a + b)[1..] == a[1..] + b;
      UnescapeAllConcat(a[1..], b);
    }
  }

  /** What arrives, in terms of the pieces between the slashes of the printed path. */
  lemma SentPieces(pieces: seq<string>)
    requires pieces != [] && AllLack(pieces, '/')
    ensures PreparePath(Path(pieces, '/')) != "" && PreparePath(Path(pieces, '/'))[0] == '/'
    ensures Decode(PreparePath(Path(pieces, '/'))) == UnescapeAll(Arriving(pieces))
  {
    PreparedPieces(pieces);
    PreparedUnescaped(pieces);
  }

  /** The tokens still escaped, as they are sent. */
  function Escaped(pieces: seq<string>): seq<string> {
    if FirstAnnotations(pieces) < 0 then pieces else Head(pieces) + [EscapeSlashes(Tail(pieces))]
  }

  lemma PreparedUnescaped(pieces: seq<string>)
    ensures UnescapeAll(Escaped(pieces)) == UnescapeAll(Arriving(pieces))
  {
    if FirstAnnotations(pieces) >= 0 {
      EscapeRoundTrip(Tail(pieces));
      UnescapeAllConcat(Head(pieces), [EscapeSlashes(Tail(pieces))]);
      UnescapeAllConcat(Head(pieces), [Tail(pieces)]);
    }
  }

  lemma PreparedWithout(pieces: seq<string>)
    requires pieces != [] && AllLack(pieces, '/') && FirstAnnotations(pieces) < 0
    ensures PreparePath(Path(pieces, '/')) != "" && PreparePath(Path(pieces, '/'))[0] == '/'
    ensures Split(PreparePath(Path(pieces, '/'))[1..], '/') == Escaped(pieces)
  {
    IndexOfAnnotations(pieces);
    SplitPath(pieces, "", '/');
    assert Path(pieces, '/') + "" == Path(pieces, '/') && pieces + TailPieces("", '/') == pieces;
  }

  lemma PreparedWith(pieces: seq<string>)
    requires pieces != [] && AllLack(pieces, '/') && FirstAnnotations(pieces) >= 0
    ensures PreparePath(Path(pieces, '/')) != "" && PreparePath(Path(pieces, '/'))[0] == '/'
    ensures Split(PreparePath(Path(pieces, '/'))[1..], '/') == Escaped(pieces)
  {
    var escaped := EscapeSlashes(Tail(pieces));
    SplitAtAnnotations(pieces);
    SplitPath(Head(pieces), ['/'] + escaped, '/');
    PathStart(Head(pieces), ['/'] + escaped, '/');
    EscapeRoundTrip(Tail(pieces));
    SplitFirst(escaped, "", '/');
    assert escaped + "" == escaped && (['/'] + escaped)[1..] == escaped;
  }

  lemma PreparedPieces(pieces: seq<string>)
    requires pieces != [] && AllLack(pieces, '/')
    ensures PreparePath(Path(pieces, '/')) != "" && PreparePath(Path(pieces, '/'))[0] == '/'
    ensures Split(PreparePath(Path(pieces, '/'))[1..], '/') == Escaped(pieces)
  {
    if FirstAnnotations(pieces) < 0 {
      PreparedWithout(pieces);
    } else {
      PreparedWith(pieces);
    }
  }

  /** The tokens up to the first annotations, and the text below them. */
  function Head(pieces: seq<string>): seq<string>
    requires FirstAnnotations(pieces) >= 0
  {
    pieces[..FirstAnnotations(pieces) + 2]
  }

  function Tail(pieces: seq<string>): string
    requires FirstAnnotations(pieces) >= 0
  {
    Path(pieces[FirstAnnotations(pieces) + 2..], '/')[1..]
  }

  function Arriving(pieces: seq<string>): seq<string> {
    if FirstAnnotations(pieces) < 0 then pieces else Head(pieces) + [Tail(pieces)]
  }

  /** The printed path is cut right after the annotations. */
  lemma SplitAtAnnotations(pieces: seq<string>)
    requires FirstAnnotations(pieces) >= 0 && AllLack(pieces, '/')
    ensures PreparePath(Path(pieces, '/')) == Path(Head(pieces), '/') + (['/'] + EscapeSlashes(Tail(pieces)))
  {
    var head, tail := Head(pieces), Tail(pieces);
    JoinedHead(pieces);
    CutAt(Path(head, '/'), tail, Path(pieces, '/'));
    IndexOfAnnotations(pieces);
    assert PreparePath(Path(pieces, '/')) == (Path(head, '/') + ['/']) + EscapeSlashes(tail);
    Regroup(Path(head, '/'), ['/'], EscapeSlashes(tail));
  }

  lemma Regroup(a: string, b: string, c: string)
    ensures (a + b) + c == a + (b + c)
  {
  }

  lemma JoinedHead(pieces: seq<string>)
    requires FirstAnnotations(pieces) >= 0
    ensures Path(pieces, '/') == Path(Head(pieces), '/') + (['/'] + Tail(pieces))
    ensures |Path(Head(pieces), '/')| + 1 == |Path(pieces[..FirstAnnotations(pieces)], '/')| + |Annotations()|
  {
    var i := FirstAnnotations(pieces);
    FirstAnnotationsAt(pieces);
    assert Head(pieces) == pieces[..i] + ["metadata", "annotations"];
    PathConcat(pieces[..i], ["metadata", "annotations"], '/');
    JoinTwo("metadata", "annotations");
    assert pieces == Head(pieces) + pieces[i + 2..];
    PathConcat(Head(pieces), pieces[i + 2..], '/');
  }

  lemma CutAt(a: string, b: string, whole: string)
    requires whole == a + (['/'] + b)
    ensures whole[..|a| + 1] == a + ['/'] && whole[|a| + 1..] == b
  {
  }

  lemma JoinTwo(a: string, b: string)
    ensures Path([a, b], '/') == ['/'] + (a + (['/'] + b))
  {
    assert [a, b][1..] == [b] && [b][1..] == [];
    assert Path([b], '/') == ['/'] + (b + "") == ['/'] + b;
  }

  lemma {:induction false} FirstAnnotationsAt(tokens: seq<string>)
    requires FirstAnnotations(tokens) >= 0
    ensures var i := FirstAnnotations(tokens); tokens[i] == "metadata" && tokens[i + 1] == "annotations"
  {
    if !(tokens[0] == "metadata" && tokens[1] == "annotations") {
      FirstAnnotationsAt(tokens[1..]);
    }
  }

  /** What comes after the annotations does not matter, as long as there is something. */
  lemma {:induction false} FirstAnnotationsStays(tokens: seq<string>, tail: seq<string>)
    requires FirstAnnotations(tokens) >= 0 && tail != []
    ensures FirstAnnotations(tokens[..FirstAnnotations(tokens) + 2] + tail) == FirstAnnotations(tokens)
  {
    var i := FirstAnnotations(tokens);
    var other := tokens[..i + 2] + tail;
    if i > 0 {
      assert other[1..] == tokens[1..][..i + 1] + tail;
      FirstAnnotationsStays(tokens[1..], tail);
    }
  }

  /** The pointer of a patch reads back as the position it was printed for exactly when the
      only slashes are in the single token below the first metadata/annotations, and no token
      has a "~0" or a "~1" in it. */
  lemma SentIffAddressable(tokens: seq<string>)
    requires tokens != []
    ensures Sent(tokens) == tokens <==> Addressable(tokens) && AllUnescaped(tokens)
  {
    RenderIsPath(tokens);
    var path := Path(tokens, '/');
    var pieces := Split(path[1..], '/');
    PathSplit(path[1..], '/');
    assert path == "/" + path[1..];
    SentPieces(pieces);
    assert Sent(tokens) == UnescapeAll(Arriving(pieces));
    ArrivingPath(pieces);
    ReadingAllShrinks(Arriving(pieces));
    if Sent(tokens) == tokens {
      ArrivedIsAddressable(tokens, pieces);
    }
    if Addressable(tokens) && AllUnescaped(tokens) {
      AddressableArrives(tokens, pieces);
    }
  }

  lemma ArrivingPath(pieces: seq<string>)
    ensures Path(Arriving(pieces), '/') == Path(pieces, '/')
  {
    if FirstAnnotations(pieces) >= 0 {
      JoinedHead(pieces);
      PathConcat(Head(pieces), [Tail(pieces)], '/');
      assert Path([Tail(pieces)], '/') == ['/'] + (Tail(pieces) + "") == ['/'] + Tail(pieces);
    }
  }

  lemma ArrivedIsAddressable(tokens: seq<string>, pieces: seq<string>)
    requires AllLack(pieces, '/')
    requires tokens == Arriving(pieces)
    ensures Addressable(tokens)
  {
    if FirstAnnotations(pieces) >= 0 {
      FirstAnnotationsStays(pieces, [Tail(pieces)]);
      assert Head(tokens) == Head(pieces);
    }
  }

  lemma AddressableArrives(tokens: seq<string>, pieces: seq<string>)
    requires tokens != [] && Addressable(tokens)
    requires pieces == Split(Path(tokens, '/')[1..], '/')
    ensures tokens == Arriving(pieces)
  {
    var i := FirstAnnotations(tokens);
    if i < 0 {
      SplitPath(tokens, "", '/');
      assert Path(tokens, '/') + "" == Path(tokens, '/') && tokens + TailPieces("", '/') == tokens;
    } else {
      var head, last := Head(tokens), tokens[i + 2];
      assert tokens == head + [last];
      PathConcat(head, [last], '/');
      assert Path([last], '/') == ['/'] + (last + "") == ['/'] + last;
      SplitPath(head, ['/'] + last, '/');
      assert (['/'] + last)[1..] == last;
      FirstAnnotationsStays(tokens, Split(last, '/'));
      assert Head(pieces) == head && pieces[i + 2..] == Split(last, '/');
      PathSplit(last, '/');
    }
  }
}
