/** The tokeniser reads a license string the way people write it: with blanks
    anywhere between the tokens, and with the "&" between two licenses left out. */
module LicenseReading {
  import opened Text
  import opened License
  import opened Manifest

  /** A token as it is written: behind some blanks, or, for an "&" between two
      licenses, by blanks alone. */
  datatype Written = Written(gap: nat, token: Token, shown: bool)

  function Blanks(n: nat): string {
    if n == 0 then "" else " " + Blanks(n - 1)
  }

  /** The string, with some blanks behind it. */
  function WrittenText(ws: seq<Written>, tail: nat): string {
    if ws == [] then Blanks(tail)
    else Blanks(ws[0].gap) + (if ws[0].shown then ElementOf(ws[0].token) else "") + WrittenText(ws[1..], tail)
  }

  function TokensOf(ws: seq<Written>): seq<Token> {
    if ws == [] then [] else [ws[0].token] + TokensOf(ws[1..])
  }

  /** Names are licenses and do not stand side by side; only an "&" between two
      names is left out, where a blank parts them. after tells whether ws stands
      behind a name. */
  predicate Readable(ws: seq<Written>, after: bool)
    decreases |ws|
  {
    ws == [] ||
      (&& (match ws[0].token
           case Name(s) => IsLicense(s) && !after && ws[0].shown
           case And => ws[0].shown || (after && ws[0].gap > 0 && |ws| > 1 && ws[1].token.Name?)
           case _ => ws[0].shown)
       && Readable(ws[1..], ws[0].token.Name?))
  }

  /** The elements that the string is split into. */
  function ShownElements(ws: seq<Written>): seq<string> {
    if ws == [] then [] else (if ws[0].shown then [ElementOf(ws[0].token)] else []) + ShownElements(ws[1..])
  }

  // ---------------------------------------------------------------------
  // Splitting

  /** The elements of s, behind the piece cur that has been read. */
  function Behind(cur: string, s: string): seq<string> {
    DropBlank(Pieces(s, cur))
  }

  function Flushed(cur: string): seq<string> {
    if cur == "" then [] else [cur]
  }

  /** What is read when a new token begins: nothing, or a license. */
  predicate Clean(cur: string) {
    cur == "" || IsLicense(cur)
  }

  lemma BehindEnd(cur: string)
    requires Clean(cur)
    ensures Behind(cur, "") == Flushed(cur)
  {
    if cur != "" { LicenseIsPlain(cur); }
    DropBlankOne(cur, []);
    PlusEmpty([cur]);
  }

  lemma BehindOperator(cur: string, c: char, s: string)
    requires Clean(cur) && OperatorChar(c)
    ensures Behind(cur, [c] + s) == Flushed(cur) + (if c == ' ' then [] else [[c]]) + Behind("", s)
  {
    if cur != "" { LicenseIsPlain(cur); }
    assert ([c] + s)[1..] == s;
    assert Pieces([c] + s, cur) == [cur, [c]] + Pieces(s, "");
    TwoPieces(cur, [c], Pieces(s, ""));
    OperatorBlank(c);
  }

  lemma TwoPieces(a: string, b: string, rest: seq<string>)
    ensures DropBlank([a, b] + rest) ==
            (if Blank(a) then [] else [a]) + (if Blank(b) then [] else [b]) + DropBlank(rest)
  {
    hide Blank;
    assert [a, b] + rest == [a] + ([b] + rest);
    DropBlankOne(a, [b] + rest);
    DropBlankOne(b, rest);
    Assoc(if Blank(a) then [] else [a], if Blank(b) then [] else [b], DropBlank(rest));
  }

  lemma OperatorBlank(c: char)
    requires OperatorChar(c)
    ensures Blank([c]) <==> c == ' '
  {
    if Blank([c]) {
      assert IsSpace([c][0]);
    }
  }

  lemma {:induction false} BehindBlanks(cur: string, n: nat, s: string)
    requires Clean(cur)
    ensures Behind(cur, Blanks(n) + s) == if n == 0 then Behind(cur, s) else Flushed(cur) + Behind("", s)
    decreases n
  {
    hide Behind, Clean;
    PlusEmpty(s);
    if n > 0 {
      Assoc(" ", Blanks(n - 1), s);
      BehindOperator(cur, ' ', Blanks(n - 1) + s);
      CleanEmpty();
      BehindBlanks("", n - 1, s);
      PlusEmpty(Flushed(cur));
      PlusEmpty(Behind("", s));
    }
  }

  lemma CleanEmpty()
    ensures Clean("")
  {
  }

  lemma BehindName(name: string, s: string)
    requires IsLicense(name)
    ensures Behind("", name + s) == Behind(name, s)
  {
    LicenseIsPlain(name);
    PiecesRun(name, s, "");
    PlusEmpty(name);
  }

  lemma BehindToken(cur: string, t: Token, s: string)
    requires Clean(cur) && (t.Name? ==> IsLicense(t.s) && cur == "")
    ensures Behind(cur, ElementOf(t) + s) ==
            if t.Name? then Behind(t.s, s) else Flushed(cur) + [ElementOf(t)] + Behind("", s)
  {
    hide Behind, IsLicense;
    if t.Name? {
      BehindName(t.s, s);
    } else {
      BehindOperator(cur, ElementOf(t)[0], s);
    }
  }

  lemma {:induction false} BehindText(ws: seq<Written>, tail: nat, cur: string, after: bool)
    requires Readable(ws, after) && Clean(cur) && (cur != "" ==> after)
    ensures Behind(cur, WrittenText(ws, tail)) == Flushed(cur) + ShownElements(ws)
    decreases |ws|
  {
    hide Behind, IsLicense, ElementOf;
    CleanEmpty();
    PlusEmpty(Flushed(cur));
    if ws == [] {
      PlusEmpty(Blanks(tail));
      BehindBlanks(cur, tail, "");
      BehindEnd("");
      BehindEnd(cur);
    } else {
      var w, rest := ws[0], WrittenText(ws[1..], tail);
      var shown := if w.shown then ElementOf(w.token) else "";
      Assoc(Blanks(w.gap), shown, rest);
      BehindBlanks(cur, w.gap, shown + rest);
      if !w.shown {
        PlusEmpty(rest);
        BehindText(ws[1..], tail, "", false);
        PlusEmpty(ShownElements(ws[1..]));
      } else {
        BehindShown(ws, tail, if w.gap == 0 then cur else "", after);
        PlusEmpty(ShownElements(ws));
      }
    }
  }

  lemma {:induction false} BehindShown(ws: seq<Written>, tail: nat, cur: string, after: bool)
    requires ws != [] && Readable(ws, after) && ws[0].shown && Clean(cur) && (cur != "" ==> after)
    ensures Behind(cur, ElementOf(ws[0].token) + WrittenText(ws[1..], tail)) == Flushed(cur) + ShownElements(ws)
    decreases |ws|, 0
  {
    hide Behind, IsLicense, ElementOf;
    var t, rest := ws[0].token, WrittenText(ws[1..], tail);
    BehindToken(cur, t, rest);
    NameElement(t);
    if t.Name? {
      CleanName(t.s);
      BehindText(ws[1..], tail, t.s, true);
      PlusEmpty(ShownElements(ws));
    } else {
      CleanEmpty();
      BehindText(ws[1..], tail, "", false);
      PlusEmpty(ShownElements(ws[1..]));
      Assoc(Flushed(cur), [ElementOf(t)], ShownElements(ws[1..]));
    }
  }

  lemma CleanName(s: string)
    requires IsLicense(s)
    ensures Clean(s) && Flushed(s) == [s]
  {
  }

  lemma NameElement(t: Token)
    ensures t.Name? ==> ElementOf(t) == t.s
  {
  }

  // ---------------------------------------------------------------------
  // From elements to tokens

  /** The last element in front is a license. */
  predicate EndsInName(pre: seq<string>) {
    pre != [] && MatchesLicense(pre[|pre| - 1])
  }

  lemma {:induction false} TokensRead(pre: seq<string>, ws: seq<Written>)
    requires Readable(ws, EndsInName(pre))
    ensures TokensFrom(pre + ShownElements(ws), |pre|) == Ok(TokensOf(ws))
    decreases |ws|
  {
    hide IsLicense, MatchesLicense, ElementOf;
    if ws == [] {
      PlusEmpty(pre);
    } else if ws[0].shown {
      var t, more := ws[0].token, ShownElements(ws[1..]);
      NextElement(pre, t, more);
      TokensRead(pre + [ElementOf(t)], ws[1..]);
      FirstToken(pre, t, more, false);
    } else {
      var t, more := ws[1].token, ShownElements(ws[2..]);
      assert ws[1..][0] == ws[1] && ws[1..][1..] == ws[2..];
      PlusEmpty(ShownElements(ws[1..]));
      NextElement(pre, t, more);
      TokensRead(pre + [ElementOf(t)], ws[2..]);
      FirstToken(pre, t, more, true);
      Assoc([And], [t], TokensOf(ws[2..]));
      assert [And] + [t] == [And, t];
      assert TokensOf(ws[1..]) == [t] + TokensOf(ws[2..]);
    }
  }

  lemma NextElement(pre: seq<string>, t: Token, more: seq<string>)
    requires t.Name? ==> IsLicense(t.s)
    ensures pre + ([ElementOf(t)] + more) == pre + [ElementOf(t)] + more
    ensures EndsInName(pre + [ElementOf(t)]) <==> t.Name?
  {
    MatchesName(t);
    Assoc(pre, [ElementOf(t)], more);
  }

  /** The token of an element, with an "&" in front of a license behind a license. */
  lemma FirstToken(pre: seq<string>, t: Token, more: seq<string>, implied: bool)
    requires t.Name? ==> IsLicense(t.s)
    requires implied <==> t.Name? && EndsInName(pre)
    ensures var es := pre + [ElementOf(t)] + more;
            TokensFrom(es, |pre|) ==
            match TokensFrom(es, |pre| + 1)
            case Ok(ts) => Ok((if implied then [And, t] else [t]) + ts)
            case Err(e) => Err(e)
  {
    MatchesName(t);
    NameElement(t);
    hide MatchesLicense, ElementOf;
    var es := pre + [ElementOf(t)] + more;
    assert es[|pre|] == ElementOf(t);
    assert pre != [] ==> es[|pre| - 1] == pre[|pre| - 1];
  }

  /** However it is written, the string is read as its tokens. */
  lemma ReadsWritten(ws: seq<Written>, tail: nat)
    requires Readable(ws, false)
    ensures TokensFrom(Elements(WrittenText(ws, tail)), 0) == Ok(TokensOf(ws))
  {
    hide WrittenText, ShownElements, Readable, TokensOf, TokensFrom;
    CleanEmpty();
    BehindText(ws, tail, "", false);
    TokensRead([], ws);
    PlusEmpty(ShownElements(ws));
  }

  // ---------------------------------------------------------------------
  // What is no token

  /** Neither a license nor an operator. */
  predicate Invalid(e: string) {
    !MatchesLicense(e) && !OperatorElement(e)
  }

  /** The elements fail exactly if one of them is no token, and the first such one is named. */
  lemma {:induction false} FirstInvalid(es: seq<string>, pos: nat, e: string)
    requires pos <= |es|
    ensures TokensFrom(es, pos) == Err(InvalidLicense(e)) <==>
            exists i | pos <= i < |es| :: es[i] == e && Invalid(e) && forall j | pos <= j < i :: !Invalid(es[j])
    ensures TokensFrom(es, pos) != Err(SyntaxError)
    decreases |es| - pos
  {
    hide MatchesLicense, OperatorElement, OperatorToken;
    if pos < |es| {
      FirstInvalid(es, pos + 1, e);
      if Invalid(es[pos]) {
        if i :| pos <= i < |es| && es[i] == e && Invalid(e) && forall j | pos <= j < i :: !Invalid(es[j]) {
          assert i == pos;
        }
      } else if TokensFrom(es, pos + 1) == Err(InvalidLicense(e)) {
        var i :| pos + 1 <= i < |es| && es[i] == e && Invalid(e) && forall j | pos + 1 <= j < i :: !Invalid(es[j]);
        assert forall j | pos <= j < i :: !Invalid(es[j]);
      }
    }
  }

  /** A license with a line break behind it passes the tokeniser, whose pattern
      overlooks the break, but no expression that holds it can be parsed. */
  lemma BreakRead(pre: seq<string>, s: string, post: seq<string>, square: bool)
    requires IsLicense(s)
    ensures !Invalid(s + "\n")
    ensures var ts := TokensFrom(pre + [s + "\n"] + post, 0);
            ts.Ok? ==> Parse(ts.value, square) == Err(SyntaxError)
  {
    var es := pre + [s + "\n"] + post;
    Snoc(s, '\n');
    assert es[|pre|] == s + "\n";
    BreakIsNone(s);
    hide MatchesLicense, IsLicense, Parse;
    if TokensFrom(es, 0).Ok? {
      NameKept(es, 0, |pre|);
      var ts := TokensFrom(es, 0).value;
      assert Name(s + "\n") in ts;
      var i :| 0 <= i < |ts| && ts[i] == Name(s + "\n");
      ParseNeedsLicenses(ts, i, square);
    }
  }

  lemma BreakIsNone(s: string)
    ensures !IsLicense(s + "\n")
  {
    assert (s + "\n")[|s|] == '\n';
  }

  lemma ParseNeedsLicenses(ts: seq<Token>, i: nat, square: bool)
    requires i < |ts| && ts[i].Name? && !IsLicense(ts[i].s)
    ensures Parse(ts, square) == Err(SyntaxError)
  {
  }

  /** Every license among the elements becomes a name. */
  lemma {:induction false} NameKept(es: seq<string>, pos: nat, i: nat)
    requires pos <= i < |es| && MatchesLicense(es[i]) && TokensFrom(es, pos).Ok?
    ensures Name(es[i]) in TokensFrom(es, pos).value
    decreases i - pos
  {
    hide MatchesLicense, OperatorElement, OperatorToken;
    if pos < i {
      NameKept(es, pos + 1, i);
    }
  }
}
