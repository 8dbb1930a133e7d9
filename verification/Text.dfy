/** The string operations of Go's strings package that the controllers use to
    store lists in one text column. */
module Text {

  /** unicode.IsSpace */
  predicate IsSpace(c: char) {
    || '\t' <= c <= '\r' || c == ' ' || c == '\U{0085}' || c == '\U{00A0}' || c == '\U{1680}'
    || '\U{2000}' <= c <= '\U{200A}' || c == '\U{2028}' || c == '\U{2029}' || c == '\U{202F}'
    || c == '\U{205F}' || c == '\U{3000}'
  }

  lemma IsSpaceExactly(c: char)
    ensures IsSpace(c) <==>
      c in {'\t', '\n', '\U{000B}', '\U{000C}', '\r', ' ', '\U{0085}', '\U{00A0}', '\U{1680}', '\U{2000}', '\U{2001}', '\U{2002}',
            '\U{2003}', '\U{2004}', '\U{2005}', '\U{2006}', '\U{2007}', '\U{2008}', '\U{2009}', '\U{200A}', '\U{2028}', '\U{2029}',
            '\U{202F}', '\U{205F}', '\U{3000}'}
  {
  }

  function TrimLeft(s: string, cut: char -> bool): (r: string)
    ensures |r| <= |s|
    ensures r == "" || (!cut(r[0]) && r[|r| - 1] == s[|s| - 1])
    ensures s != "" && !cut(s[0]) ==> r == s
  {
    if s == "" then "" else if cut(s[0]) then TrimLeft(s[1..], cut) else s
  }

  function TrimRight(s: string, cut: char -> bool): (r: string)
    ensures |r| <= |s|
    ensures r == "" || (!cut(r[|r| - 1]) && r[0] == s[0])
    ensures s != "" && !cut(s[|s| - 1]) ==> r == s
  {
    if s == "" then "" else if cut(s[|s| - 1]) then TrimRight(s[..|s| - 1], cut) else s
  }

  predicate Clean(s: string, cut: char -> bool) {
    s == "" || (!cut(s[0]) && !cut(s[|s| - 1]))
  }

  function Trim(s: string, cut: char -> bool): (r: string)
    ensures Clean(r, cut)
    ensures Clean(s, cut) ==> r == s
  {
    TrimRight(TrimLeft(s, cut), cut)
  }

  function TrimSpace(s: string): (r: string)
    ensures Clean(r, IsSpace)
    ensures Clean(s, IsSpace) ==> r == s
  {
    Trim(s, IsSpace)
  }

  lemma TrimChars(s: string, cut: char -> bool)
    ensures forall c :: c in Trim(s, cut) ==> c in s
  {
    TrimLeftChars(s, cut);
    TrimRightChars(TrimLeft(s, cut), cut);
  }

  lemma {:induction false} TrimLeftChars(s: string, cut: char -> bool)
    ensures forall c :: c in TrimLeft(s, cut) ==> c in s
  {
    if s == "" {
    } else {
      TrimLeftChars(s[1..], cut);
    }
  }

  lemma {:induction false} TrimRightChars(s: string, cut: char -> bool)
    ensures forall c :: c in TrimRight(s, cut) ==> c in s
  {
    if s == "" {
    } else {
      TrimRightChars(s[..|s| - 1], cut);
    }
  }

  predicate AllCut(s: string, cut: char -> bool) {
    forall i :: 0 <= i < |s| ==> cut(s[i])
  }

  /** Trimming takes nothing but the cut characters at both ends, all of them. */
  lemma TrimIsMiddle(s: string, cut: char -> bool) returns (left: string, right: string)
    ensures s == left + Trim(s, cut) + right && AllCut(left, cut) && AllCut(right, cut)
    ensures Clean(Trim(s, cut), cut)
  {
    left := TrimLeftRest(s, cut);
    right := TrimRightRest(TrimLeft(s, cut), cut);
  }

  lemma {:induction false} TrimLeftRest(s: string, cut: char -> bool) returns (left: string)
    ensures s == left + TrimLeft(s, cut) && AllCut(left, cut)
  {
    if s == "" || !cut(s[0]) {
      left := "";
    } else {
      left := TrimLeftRest(s[1..], cut);
      left := [s[0]] + left;
    }
  }

  lemma {:induction false} TrimRightRest(s: string, cut: char -> bool) returns (right: string)
    ensures s == TrimRight(s, cut) + right && AllCut(right, cut)
  {
    if s == "" || !cut(s[|s| - 1]) {
      right := "";
    } else {
      right := TrimRightRest(s[..|s| - 1], cut);
      right := right + [s[|s| - 1]];
    }
  }

  predicate HasPrefix(s: string, prefix: string) { prefix <= s }

  /** Cuts at every separator; there is always at least one piece. */
  function Split(s: string, sep: char): (parts: seq<string>)
    ensures |parts| >= 1
    ensures forall p :: p in parts ==> sep !in p
  {
    if s == "" then [""]
    else
      var rest := Split(s[1..], sep);
      if s[0] == sep then [""] + rest else Glue(s[0], rest)
  }

  /** One more character in front of the first piece. */
  function Glue(c: char, parts: seq<string>): (r: seq<string>)
    requires |parts| >= 1
    ensures |r| == |parts|
  {
    [[c] + parts[0]] + parts[1..]
  }

  lemma GlueConcat(c: char, a: seq<string>, b: seq<string>)
    requires |a| >= 1
    ensures Glue(c, a + b) == Glue(c, a) + b
  {
    assert (a + b)[1..] == a[1..] + b;
  }

  function Join(parts: seq<string>, sep: char): (s: string) {
    if parts == [] then "" else if |parts| == 1 then parts[0] else parts[0] + [sep] + Join(parts[1..], sep)
  }

  /** Splitting works piecewise around any separator. */
  lemma {:induction false} SplitAt(a: string, b: string, sep: char)
    ensures Split(a + [sep] + b, sep) == Split(a, sep) + Split(b, sep)
  {
    var s := a + [sep] + b;
    if a == "" {
      assert s[1..] == b;
    } else {
      assert s[1..] == a[1..] + [sep] + b && s[0] == a[0];
      SplitAt(a[1..], b, sep);
      var rest, tail := Split(a[1..], sep), Split(b, sep);
      if a[0] == sep {
        assert [""] + (rest + tail) == ([""] + rest) + tail;
      } else {
        GlueConcat(a[0], rest, tail);
      }
    }
  }

  lemma {:induction false} SplitWhole(p: string, sep: char)
    requires sep !in p
    ensures Split(p, sep) == [p]
  {
    if p == "" {
    } else {
      SplitWhole(p[1..], sep);
      assert [p[0]] + p[1..] == p;
    }
  }

  lemma SplitFirst(first: string, rest: string, sep: char)
    requires sep !in first
    ensures Split(first + [sep] + rest, sep) == [first] + Split(rest, sep)
  {
    SplitWhole(first, sep);
    SplitAt(first, rest, sep);
  }

  /** A joined list of pieces without the separator splits into itself. */
  lemma {:induction false} SplitJoined(parts: seq<string>, sep: char)
    requires parts != [] && forall p :: p in parts ==> sep !in p
    ensures Split(Join(parts, sep), sep) == parts
  {
    if |parts| == 1 {
      SplitWhole(parts[0], sep);
    } else {
      assert parts[0] in parts && forall p :: p in parts[1..] ==> p in parts;
      SplitJoined(parts[1..], sep);
      SplitFirst(parts[0], Join(parts[1..], sep), sep);
    }
  }

  /** Pieces without surrounding white space, blank ones dropped. */
  function Pieces(lines: seq<string>): (r: seq<string>) {
    if lines == [] then []
    else
      var rest := Pieces(lines[1..]);
      var piece := TrimSpace(lines[0]);
      if piece == "" then rest else [piece] + rest
  }

  lemma {:induction false} PiecesClean(lines: seq<string>)
    ensures forall p :: p in Pieces(lines) ==> p != "" && Clean(p, IsSpace)
  {
    if lines == [] {
    } else {
      PiecesClean(lines[1..]);
    }
  }

  lemma {:induction false} PiecesFree(lines: seq<string>, c: char)
    requires forall l :: l in lines ==> c !in l
    ensures forall p :: p in Pieces(lines) ==> c !in p
  {
    if lines == [] {
    } else {
      assert lines[0] in lines && forall l :: l in lines[1..] ==> l in lines;
      PiecesFree(lines[1..], c);
      TrimChars(lines[0], IsSpace);
    }
  }

  lemma {:induction false} TrimBlank(s: string, cut: char -> bool)
    ensures Trim(s, cut) == "" <==> forall c :: c in s ==> cut(c)
  {
    if s == "" {
    } else {
      if cut(s[0]) {
        TrimBlank(s[1..], cut);
        assert s == [s[0]] + s[1..];
      } else {
        assert s[0] in s && TrimLeft(s, cut) == s;
        TrimRightBlank(s, cut);
      }
    }
  }

  lemma {:induction false} TrimRightBlank(s: string, cut: char -> bool)
    requires s != "" && !cut(s[0])
    ensures TrimRight(s, cut) != ""
  {
    if !cut(s[|s| - 1]) {
    } else {
      TrimRightBlank(s[..|s| - 1], cut);
    }
  }

  lemma {:induction false} SplitChars(s: string, sep: char)
    ensures forall p, c :: p in Split(s, sep) && c in p ==> c in s
  {
    if s == "" {
    } else {
      SplitChars(s[1..], sep);
    }
  }

  lemma {:induction false} NoPieces(lines: seq<string>)
    requires forall l :: l in lines ==> TrimSpace(l) == ""
    ensures Pieces(lines) == []
  {
    if lines == [] {
    } else {
      assert lines[0] in lines && forall l :: l in lines[1..] ==> l in lines;
      NoPieces(lines[1..]);
    }
  }

  /** A text of white space holds no piece. */
  lemma BlankTextHasNoPieces(s: string, sep: char)
    requires TrimSpace(s) == ""
    ensures Pieces(Split(s, sep)) == []
  {
    TrimBlank(s, IsSpace);
    SplitChars(s, sep);
    forall l | l in Split(s, sep) ensures TrimSpace(l) == "" {
      TrimBlank(l, IsSpace);
    }
    NoPieces(Split(s, sep));
  }

  /** Stripping separators from both ends of a text only loses blank pieces. */
  lemma TrimKeepsPieces(s: string, sep: char)
    ensures Pieces(Split(Trim(s, c => c == sep), sep)) == Pieces(Split(s, sep))
  {
    TrimLeftKeepsPieces(s, sep);
    TrimRightKeepsPieces(TrimLeft(s, c => c == sep), sep);
  }

  lemma {:induction false} TrimLeftKeepsPieces(s: string, sep: char)
    ensures Pieces(Split(TrimLeft(s, c => c == sep), sep)) == Pieces(Split(s, sep))
  {
    if s == "" || s[0] != sep {
    } else {
      TrimLeftKeepsPieces(s[1..], sep);
      assert Pieces([""] + Split(s[1..], sep)) == Pieces(Split(s[1..], sep)) by {
        PiecesConcat([""], Split(s[1..], sep));
        NoPieces([""]);
      }
    }
  }

  lemma {:induction false} TrimRightKeepsPieces(s: string, sep: char)
    ensures Pieces(Split(TrimRight(s, c => c == sep), sep)) == Pieces(Split(s, sep))
  {
    if s == "" || s[|s| - 1] != sep {
    } else {
      var init := s[..|s| - 1];
      TrimRightKeepsPieces(init, sep);
      SplitEndsBlank(init, sep);
      assert s == init + [sep];
      PiecesSnoc(Split(init, sep), "");
    }
  }

  lemma SplitEndsBlank(s: string, sep: char)
    ensures Split(s + [sep], sep) == Split(s, sep) + [""] && TrimSpace("") == ""
  {
    assert s + [sep] + "" == s + [sep];
    SplitAt(s, "", sep);
  }

  lemma PiecesSnoc(lines: seq<string>, last: string)
    ensures Pieces(lines + [last]) == Pieces(lines) + (if TrimSpace(last) == "" then [] else [TrimSpace(last)])
  {
    PiecesConcat(lines, [last]);
    assert [last][1..] == [] && Pieces([]) == [];
  }

  lemma {:induction false} PiecesConcat(a: seq<string>, b: seq<string>)
    ensures Pieces(a + b) == Pieces(a) + Pieces(b)
  {
    if a == [] {
      assert a + b == b;
    } else {
      assert (a + b)[1..] == a[1..] + b;
      PiecesConcat(a[1..], b);
    }
  }

  lemma {:induction false} PiecesOfTidy(lines: seq<string>)
    requires forall l :: l in lines ==> l != "" && Clean(l, IsSpace)
    ensures Pieces(lines) == lines
  {
    if lines == [] {
    } else {
      assert lines[0] in lines && forall l :: l in lines[1..] ==> l in lines;
      assert [lines[0]] + lines[1..] == lines;
      PiecesOfTidy(lines[1..]);
    }
  }

  /** The text of a list starts with its first piece and ends with its last. */
  lemma JoinEnds(parts: seq<string>, sep: char)
    requires parts != [] && parts[0] != "" && parts[|parts| - 1] != ""
    ensures var s := Join(parts, sep); var z := parts[|parts| - 1];
            s != "" && s[0] == parts[0][0] && s[|s| - 1] == z[|z| - 1]
  {
    if |parts| > 1 {
      JoinTail(parts[1..], sep);
      LastOfConcat(parts[0] + [sep], Join(parts[1..], sep));
    }
  }

  predicate EndsLike(s: string, t: string) {
    s != "" && t != "" && s[|s| - 1] == t[|t| - 1]
  }

  lemma {:induction false} JoinTail(parts: seq<string>, sep: char)
    requires parts != [] && parts[|parts| - 1] != ""
    ensures EndsLike(Join(parts, sep), parts[|parts| - 1])
  {
    if |parts| == 1 {
    } else {
      JoinTail(parts[1..], sep);
      LastOfConcat(parts[0] + [sep], Join(parts[1..], sep));
    }
  }

  lemma LastOfConcat(a: string, b: string)
    requires b != ""
    ensures EndsLike(a + b, b)
  {
  }

  /** Trimming separators from a joined list is harmless when its end pieces are
      not blank, so the stored text reads back as the list. */
  lemma StoredListReadsBack(parts: seq<string>, sep: char)
    requires parts != [] && parts[0] != "" && parts[|parts| - 1] != ""
    requires forall p :: p in parts ==> sep !in p
    ensures Join(parts, sep) != "" && Split(Trim(Join(parts, sep), c => c == sep), sep) == parts
  {
    JoinEnds(parts, sep);
    var s := Join(parts, sep);
    assert parts[0] in parts && parts[|parts| - 1] in parts;
    assert s[0] in parts[0] && s[|s| - 1] in parts[|parts| - 1];
    assert Trim(s, c => c == sep) == s;
    SplitJoined(parts, sep);
  }

  lemma {:induction false} JoinSplit(s: string, sep: char)
    ensures Join(Split(s, sep), sep) == s
  {
    if s == "" {
    } else {
      var rest := Split(s[1..], sep);
      JoinSplit(s[1..], sep);
      if s[0] == sep {
        assert ([""] + rest)[1..] == rest;
      } else {
        JoinGlue(s[0], rest, sep);
      }
    }
  }

  lemma JoinGlue(c: char, parts: seq<string>, sep: char)
    requires |parts| >= 1
    ensures Join(Glue(c, parts), sep) == [c] + Join(parts, sep)
  {
    assert Glue(c, parts)[1..] == parts[1..];
  }

  lemma {:induction false} JoinBlankEnd(parts: seq<string>, sep: char)
    requires |parts| >= 2 && parts[|parts| - 1] == ""
    ensures var s := Join(parts, sep); s != "" && s[|s| - 1] == sep
  {
    if |parts| <= 2 {
    } else {
      JoinBlankEnd(parts[1..], sep);
    }
  }

  lemma {:induction false} JoinLength(parts: seq<string>, a: char, b: char)
    ensures |Join(parts, a)| == |Join(parts, b)|
  {
    if |parts| <= 1 {
    } else {
      JoinLength(parts[1..], a, b);
    }
  }

  /** Nothing else reads back. */
  lemma ReadBackIsStorable(parts: seq<string>, sep: char)
    requires Join(parts, sep) != "" && Split(Trim(Join(parts, sep), c => c == sep), sep) == parts
    ensures parts != [] && parts[0] != "" && parts[|parts| - 1] != "" && forall p :: p in parts ==> sep !in p
  {
    var s := Join(parts, sep);
    var cut := c => c == sep;
    assert Clean(Trim(s, cut), cut);
    JoinSplit(Trim(s, c => c == sep), sep);
    assert s[0] != sep && s[|s| - 1] != sep;
    if |parts| > 1 && parts[|parts| - 1] == "" {
      JoinBlankEnd(parts, sep);
    }
  }
}
