/** Where split_var_value parts a value: at the blanks, and in an assignment
    around the quotes, that no expression holds. */
module SplitSpelled {
  import opened Text
  import opened SplitVar

  /** An item with the whitespace in front of it. */
  datatype Piece = Piece(gap: string, text: string)

  function Spelling(ps: seq<Piece>): string {
    if ps == [] then ""
    else var p := ps[|ps| - 1]; Spelling(ps[..|ps| - 1]) + p.gap + p.text
  }

  function Texts(ps: seq<Piece>): seq<string> {
    if ps == [] then [] else Texts(ps[..|ps| - 1]) + [ps[|ps| - 1].text]
  }

  predicate Blank(s: string) {
    forall i | 0 <= i < |s| :: IsSpace(s[i])
  }

  /** A quote of an assignment, which is an item by itself. */
  predicate Quoted(assignment: bool, text: string) {
    assignment && |text| == 1 && Quote(text[0])
  }

  /** The last of the pieces is an item that the next character would lengthen. */
  predicate Open(assignment: bool, ps: seq<Piece>) {
    ps != [] && !Quoted(assignment, ps[|ps| - 1].text)
  }

  /** Nothing separates inside an item, and whitespace parts two items unless
      one is a quote; all expressions are closed behind the last piece, or
      after is false. */
  predicate Parted(assignment: bool, ps: seq<Piece>, after: bool)
    decreases |ps|
  {
    ps == [] ||
      (var p, front := ps[|ps| - 1], ps[..|ps| - 1];
       && Parted(assignment, front, true) && Blank(p.gap) && (after ==> Depth(p.text) == 0)
       && (Quoted(assignment, p.text) ||
           (p.text != "" && Whole(assignment, p.text) && (Open(assignment, front) ==> p.gap != ""))))
  }

  /** What the character loop knows after the pieces. */
  predicate Reached(assignment: bool, ps: seq<Piece>, st: Scanner) {
    && Flush(st) == Texts(ps)
    && (if Open(assignment, ps) then st.inexpr == Depth(ps[|ps| - 1].text) else Anew(st))
  }

  predicate Anew(st: Scanner) {
    st.inexpr == 0 && st.last == None && st.buf == ""
  }

  lemma {:induction false} ScanBlank(assignment: bool, a: string, gap: string)
    requires Blank(gap) && Scan(assignment, a).inexpr == 0
    ensures gap == "" ==> a + gap == a
    ensures gap != "" ==> Scan(assignment, a + gap) == Scanner(0, None, Flush(Scan(assignment, a)), "")
    decreases |gap|
  {
    hide IsSpace;
    PlusEmpty(a);
    if gap != "" {
      var n := |gap| - 1;
      Snoc(a + gap[..n], gap[n]);
      assert a + gap == a + gap[..n] + [gap[n]];
      ScanBlank(assignment, a, gap[..n]);
      SpaceIsPlain(gap[n]);
    }
  }

  lemma SpaceIsPlain(c: char)
    requires IsSpace(c)
    ensures c != '{' && c != '}' && !Quote(c)
  {
  }

  lemma {:induction false} ScanPieces(assignment: bool, ps: seq<Piece>)
    requires Parted(assignment, ps, false)
    ensures Reached(assignment, ps, Scan(assignment, Spelling(ps)))
    decreases |ps|
  {
    hide IsSpace, Whole, Depth, Scan, Flush;
    if ps == [] {
      ScanNothing(assignment);
    } else {
      var p, front := ps[|ps| - 1], ps[..|ps| - 1];
      var a := Spelling(front);
      PartedWeaker(assignment, front);
      ScanPieces(assignment, front);
      assert Scan(assignment, a).inexpr == 0 by { DepthNone(); }
      ScanBlank(assignment, a, p.gap);
      FlushAnew(Scan(assignment, a + p.gap));
      FlushAnew(Scan(assignment, a));
      if Quoted(assignment, p.text) {
        ScanOneQuote(assignment, a + p.gap, p.text);
        FlushAnew(Scan(assignment, Spelling(ps)));
      } else {
        ScanItem(assignment, a + p.gap, p.text);
      }
    }
  }

  lemma DepthNone()
    ensures Depth("") == 0
  {
  }

  lemma ScanNothing(assignment: bool)
    ensures Scan(assignment, "") == Scanner(0, None, [], "") && Flush(Scan(assignment, "")) == []
  {
  }

  lemma FlushAnew(st: Scanner)
    ensures st.buf == "" ==> Flush(st) == st.out
    ensures st.buf != "" ==> Flush(st) == st.out + [st.buf]
  {
  }

  lemma PartedWeaker(assignment: bool, ps: seq<Piece>)
    requires Parted(assignment, ps, true)
    ensures Parted(assignment, ps, false)
    ensures Open(assignment, ps) ==> Depth(ps[|ps| - 1].text) == 0
  {
  }

  lemma ScanOneQuote(assignment: bool, a: string, text: string)
    requires Quoted(assignment, text) && Scan(assignment, a).inexpr == 0
    ensures Scan(assignment, a + text) == Scanner(0, None, Flush(Scan(assignment, a)) + [text], "")
  {
    Snoc(a, text[0]);
    assert text == [text[0]];
  }

  lemma ScanItem(assignment: bool, a: string, text: string)
    requires text != "" && Whole(assignment, text) && Anew(Scan(assignment, a))
    ensures var st := Scan(assignment, a + text);
            st.inexpr == Depth(text) && Flush(st) == Scan(assignment, a).out + [text]
  {
    hide Whole, Depth, Step;
    ScanWhole(assignment, text);
    ScanFresh(assignment, a, text);
    PlusEmpty(Scan(assignment, a).out);
  }

  /** A value that is spelled this way is split into its items. */
  lemma PiecesSplit(assignment: bool, ps: seq<Piece>, tail: string)
    requires Parted(assignment, ps, tail != "") && Blank(tail)
    ensures Items(assignment, Spelling(ps) + tail) == Texts(ps)
  {
    hide IsSpace, Scan, Depth, Parted, Spelling, Blank, Flush;
    PlusEmpty(Spelling(ps));
    if tail == "" {
      ScanPieces(assignment, ps);
    } else {
      PartedWeaker(assignment, ps);
      ScanPieces(assignment, ps);
      ScanBlank(assignment, Spelling(ps), tail);
      FlushAnew(Scan(assignment, Spelling(ps) + tail));
    }
  }

  // ---------------------------------------------------------------------
  // Every value is spelled this way

  /** The pieces of any value: those of the value before its last character, with one more character. */
  lemma {:induction false} Pieces(assignment: bool, value: string) returns (ps: seq<Piece>, tail: string)
    ensures Parted(assignment, ps, tail != "") && Blank(tail) && value == Spelling(ps) + tail
    decreases |value|
  {
    hide IsSpace, Whole, Depth;
    if value == "" {
      ps, tail := [], "";
    } else {
      var n := |value| - 1;
      var c := value[n];
      ps, tail := Pieces(assignment, value[..n]);
      assert value == value[..n] + [c];
      ps, tail := MorePieces(assignment, ps, tail, c);
    }
  }

  /** The last piece leaves no expression open. */
  predicate Closed(ps: seq<Piece>) {
    ps == [] || Depth(ps[|ps| - 1].text) == 0
  }

  lemma PartedClosed(assignment: bool, ps: seq<Piece>, after: bool)
    requires Parted(assignment, ps, after)
    ensures Parted(assignment, ps, true) <==> Closed(ps)
    ensures Parted(assignment, ps, false)
  {
  }

  lemma BlankMore(s: string, c: char)
    requires Blank(s) && IsSpace(c)
    ensures Blank(s + [c])
  {
  }

  lemma QuoteCloses(assignment: bool, ps: seq<Piece>)
    ensures if Open(assignment, ps) then ps != [] else Closed(ps)
  {
    if ps != [] && Quoted(assignment, ps[|ps| - 1].text) {
      QuoteDepth(ps[|ps| - 1].text);
    }
  }

  lemma QuoteDepth(text: string)
    requires |text| == 1 && Quote(text[0])
    ensures Depth(text) == 0
  {
    assert text[..0] == "";
  }

  /** One character more: it is blank, begins an item, or lengthens the last one. */
  lemma MorePieces(assignment: bool, ps: seq<Piece>, tail: string, c: char) returns (ps': seq<Piece>, tail': string)
    requires Parted(assignment, ps, tail != "") && Blank(tail)
    ensures Parted(assignment, ps', tail' != "") && Blank(tail') && Spelling(ps') + tail' == Spelling(ps) + tail + [c]
  {
    hide IsSpace, Whole, Depth, Parted, Spelling, Open, Closed, Blank, Quote;
    PartedClosed(assignment, ps, tail != "");
    QuoteCloses(assignment, ps);
    if Closed(ps) && IsSpace(c) {
      ps', tail' := ps, tail + [c];
      BlankMore(tail, c);
      Assoc(Spelling(ps), tail, [c]);
    } else if (Closed(ps) && assignment && Quote(c)) || tail != "" || !Open(assignment, ps) {
      ps', tail' := ps + [Piece(tail, [c])], "";
      NewPiece(assignment, ps, tail, c);
      PlusEmpty(Spelling(ps'));
    } else {
      ps', tail' := Longer(ps, c), "";
      LongerParted(assignment, ps, c);
      PlusEmpty(Spelling(ps));
      PlusEmpty(Spelling(ps'));
    }
  }

  lemma NewPiece(assignment: bool, ps: seq<Piece>, tail: string, c: char)
    requires Parted(assignment, ps, true) && Blank(tail) && !IsSpace(c)
    requires (assignment && Quote(c)) || tail != "" || !Open(assignment, ps)
    ensures var ps' := ps + [Piece(tail, [c])];
            Parted(assignment, ps', false) && Blank("") && Spelling(ps') == Spelling(ps) + tail + [c]
  {
    hide IsSpace, Depth;
    Snoc(ps, Piece(tail, [c]));
  }

  function Longer(ps: seq<Piece>, c: char): seq<Piece>
    requires ps != []
  {
    var p := ps[|ps| - 1]; ps[..|ps| - 1] + [Piece(p.gap, p.text + [c])]
  }

  lemma LongerParted(assignment: bool, ps: seq<Piece>, c: char)
    requires Parted(assignment, ps, false) && Open(assignment, ps)
    requires Closed(ps) ==> !Separates(assignment, c)
    ensures Parted(assignment, Longer(ps, c), false) && Blank("") && Spelling(Longer(ps, c)) == Spelling(ps) + [c]
  {
    hide IsSpace, Depth, Whole, Separates;
    var p, front := ps[|ps| - 1], ps[..|ps| - 1];
    Snoc(front, Piece(p.gap, p.text + [c]));
    WholeMore(assignment, p.text, c);
    Assoc(Spelling(front) + p.gap, p.text, [c]);
  }

  lemma WholeMore(assignment: bool, s: string, c: char)
    requires Whole(assignment, s) && (Depth(s) == 0 ==> !Separates(assignment, c))
    ensures Whole(assignment, s + [c])
  {
    hide Separates, Depth;
    Snoc(s, c);
    forall i | 0 <= i < |s + [c]| ensures Separates(assignment, (s + [c])[i]) ==> Depth((s + [c])[..i]) != 0 {
      if i < |s| {
        assert (s + [c])[..i] == s[..i] && (s + [c])[i] == s[i];
      }
    }
  }

  /** So splitting any value returns exactly the items it consists of, and only
      whitespace at depth zero is lost between them. */
  lemma SplitIsPieces(assignment: bool, value: string) returns (ps: seq<Piece>, tail: string)
    ensures Parted(assignment, ps, tail != "") && Blank(tail) && value == Spelling(ps) + tail
    ensures Items(assignment, value) == Texts(ps)
  {
    ps, tail := Pieces(assignment, value);
    PiecesSplit(assignment, ps, tail);
  }
}
