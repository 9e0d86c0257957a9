/** manifest_licenses with a filter: what spoils the printed string, and that
    no spoilt or unbalanced string is a license expression. */
module FilterFaults {
  import opened Text
  import opened License
  import opened Manifest
  import opened ManifestLaws

  // ---------------------------------------------------------------------
  // Balance

  function NetChar(c: char): int {
    if OpenChar(c) then 1 else if CloseChar(c) then -1 else 0
  }

  /** Opening minus closing brackets. */
  function Net(s: string): int {
    if s == "" then 0 else NetChar(s[0]) + Net(s[1..])
  }

  function NetToken(t: Token): int {
    if t == Open then 1 else if t == Close then -1 else 0
  }

  function TokenNet(ts: seq<Token>): int {
    if ts == [] then 0 else NetToken(ts[0]) + TokenNet(ts[1..])
  }

  function ElementNet(es: seq<string>): int {
    if es == [] then 0 else Net(es[0]) + ElementNet(es[1..])
  }

  lemma {:induction false} NetAppend(a: string, b: string)
    ensures Net(a + b) == Net(a) + Net(b)
  {
    if a == "" {
      PlusEmpty(b);
    } else {
      PlusTail(a, b);
      NetAppend(a[1..], b);
    }
  }

  lemma {:induction false} TokenNetAppend(a: seq<Token>, b: seq<Token>)
    ensures TokenNet(a + b) == TokenNet(a) + TokenNet(b)
  {
    if a == [] {
      PlusEmpty(b);
    } else {
      PlusTail(a, b);
      TokenNetAppend(a[1..], b);
    }
  }

  lemma NetOne(c: char)
    ensures Net([c]) == NetChar(c)
  {
    assert [c][1..] == "";
  }

  lemma TokenNetOne(t: Token)
    ensures TokenNet([t]) == NetToken(t)
  {
    assert [t][1..] == [];
  }

  lemma {:induction false} NetPlain(s: string)
    requires forall i | 0 <= i < |s| :: !OpenChar(s[i]) && !CloseChar(s[i])
    ensures Net(s) == 0
  {
    if s != "" {
      NetPlain(s[1..]);
    }
  }

  lemma {:induction false} NetRounded(s: string)
    ensures Net(Rounded(s)) == Net(s)
  {
    if s != "" {
      NetRounded(s[1..]);
      PlusTail([RoundChar(s[0])], Rounded(s[1..]));
      assert [RoundChar(s[0])][1..] == "";
      PlusEmpty(Rounded(s[1..]));
    }
  }

  lemma {:induction false} NetDropBlank(es: seq<string>)
    ensures ElementNet(DropBlank(es)) == ElementNet(es)
  {
    if es != [] {
      NetDropBlank(es[1..]);
      if Blank(es[0]) {
        NetPlain(es[0]);
        PlusEmpty(DropBlank(es[1..]));
      } else {
        PlusTail([es[0]], DropBlank(es[1..]));
        assert [es[0]][1..] == [];
        PlusEmpty(DropBlank(es[1..]));
      }
    }
  }

  lemma {:induction false} NetPieces(s: string, cur: string)
    ensures ElementNet(Pieces(s, cur)) == Net(cur) + Net(s)
    decreases |s|
  {
    hide OperatorChar, OpenChar, CloseChar;
    if s == "" {
      assert [cur][1..] == [];
    } else if OperatorChar(s[0]) {
      NetPieces(s[1..], "");
      NetOne(s[0]);
      ElementNetTwo(cur, [s[0]], Pieces(s[1..], ""));
    } else {
      NetPieces(s[1..], cur + [s[0]]);
      NetAppend(cur, [s[0]]);
      NetOne(s[0]);
    }
  }

  lemma ElementNetTwo(a: string, b: string, es: seq<string>)
    ensures ElementNet([a, b] + es) == Net(a) + Net(b) + ElementNet(es)
  {
    hide Net;
    assert ([a, b] + es)[1..] == [b] + es && ([b] + es)[1..] == es;
  }

  lemma {:induction false} NetTokens(es: seq<string>, pos: nat)
    requires pos <= |es| && TokensFrom(es, pos).Ok?
    ensures TokenNet(TokensFrom(es, pos).value) == ElementNet(es[pos..])
    decreases |es| - pos
  {
    hide MatchesLicense, Net, NetToken, OperatorElement;
    if pos < |es| {
      NetTokens(es, pos + 1);
      assert es[pos..][1..] == es[pos + 1..];
      NetElement(es[pos], TokensFrom(es, pos + 1).value);
    }
  }

  lemma NetElement(e: string, more: seq<Token>)
    requires MatchesLicense(e) || OperatorElement(e)
    ensures MatchesLicense(e) ==>
            TokenNet([Name(e)] + more) == Net(e) + TokenNet(more) == TokenNet([And, Name(e)] + more)
    ensures OperatorElement(e) ==> TokenNet([OperatorToken(e)] + more) == Net(e) + TokenNet(more)
  {
    if MatchesLicense(e) {
      NetLicense(e);
      assert ([And, Name(e)] + more)[1..] == [Name(e)] + more && ([Name(e)] + more)[1..] == more;
    }
    if OperatorElement(e) {
      assert ([OperatorToken(e)] + more)[1..] == more;
      assert e == [e[0]];
      NetOne(e[0]);
    }
  }

  lemma NetLicense(e: string)
    requires MatchesLicense(e)
    ensures Net(e) == 0
  {
    var t := if IsLicense(e) then e else e[..|e| - 1];
    assert forall i | 0 <= i < |t| :: LicenseChar(t[i]);
    assert forall i | 0 <= i < |e| :: e[i] == '\n' || e[i] == t[i];
    NetPlain(e);
  }

  lemma {:induction false} ExprBalanced(e: Expr)
    ensures TokenNet(Tokens(e)) == 0
  {
    hide TokenNet;
    match e
    case Lic(s) => TokenNetOne(Name(s));
    case BinAnd(l, r) =>
      ExprBalanced(l);
      ExprBalanced(r);
      Between(Tokens(l), And, Tokens(r));
    case BinOr(l, r) =>
      ExprBalanced(l);
      ExprBalanced(r);
      Between(Tokens(l), Or, Tokens(r));
    case Group(i) =>
      ExprBalanced(i);
      TokenNetOne(Open);
      TokenNetAppend([Open], Tokens(i));
      Closed([Open] + Tokens(i));
    case EmptyGroup =>
      TokenNetOne(Open);
      Closed([Open]);
      assert [Open] + [Close] == [Open, Close];
    case Apply(f, a) =>
      ExprBalanced(f);
      ExprBalanced(a);
      Between(Tokens(f), Open, Tokens(a));
      Closed(Tokens(f) + [Open] + Tokens(a));
    case ApplyNone(f) =>
      ExprBalanced(f);
      TokenNetOne(Open);
      Closed([Open]);
      assert [Open] + [Close] == [Open, Close];
      TokenNetAppend(Tokens(f), [Open, Close]);
  }

  lemma Between(l: seq<Token>, t: Token, r: seq<Token>)
    ensures TokenNet(l + [t] + r) == TokenNet(l) + NetToken(t) + TokenNet(r)
  {
    hide TokenNet;
    TokenNetAppend(l + [t], r);
    TokenNetAppend(l, [t]);
    TokenNetOne(t);
  }

  lemma Closed(l: seq<Token>)
    ensures TokenNet(l + [Close]) == TokenNet(l) - 1
  {
    hide TokenNet;
    TokenNetAppend(l, [Close]);
    TokenNetOne(Close);
  }

  /** What parses is balanced. */
  lemma ParsedBalanced(text: string, f: Expr)
    requires ParsedFrom(Rounded(text), f)
    ensures Net(text) == 0
  {
    var s := Rounded(text);
    ParsedFromIff(s, f);
    ExprBalanced(f);
    NetTokens(Elements(s), 0);
    assert Elements(s)[0..] == Elements(s);
    NetDropBlank(Pieces(s, ""));
    NetPieces(s, "");
    NetRounded(text);
  }

  // ---------------------------------------------------------------------
  // An operator right behind an opening bracket

  /** "[ & " or "[ | " somewhere in a printed text. */
  predicate OperatorInside(t: string) {
    exists i | 0 <= i < |t| - 2 :: InsideAt(t, i)
  }

  predicate InsideAt(t: string, i: nat) {
    i + 2 < |t| && t[i] == '[' && t[i + 1] == ' ' && (t[i + 2] == '&' || t[i + 2] == '|')
  }

  predicate TokenInside(ts: seq<Token>) {
    exists i | 0 <= i < |ts| - 1 :: ts[i] == Open && (ts[i + 1] == And || ts[i + 1] == Or)
  }

  lemma InsideMore(a: string, b: string)
    ensures OperatorInside(a) || OperatorInside(b) ==> OperatorInside(a + b)
  {
    if i :| 0 <= i < |a| - 2 && InsideAt(a, i) {
      assert InsideAt(a + b, i);
    }
    if i :| 0 <= i < |b| - 2 && InsideAt(b, i) {
      assert InsideAt(a + b, |a| + i);
    }
  }

  /** Where the text has one, the elements do. */
  lemma {:induction false} InsidePieces(a: string, op: char, b: string, cur: string)
    returns (pre: seq<string>, post: seq<string>)
    requires op == '&' || op == '|'
    ensures DropBlank(Pieces(a + (['(', ' ', op] + b), cur)) == pre + (["(", [op]] + post)
    decreases |a|
  {
    hide DropBlank, Pieces;
    var tail := ['(', ' ', op] + b;
    if a == "" {
      PlusEmpty(tail);
      pre, post := if Blank(cur) then [] else [cur], DropBlank(Pieces(b, ""));
      InsideHere(op, b, cur);
    } else {
      var x := a[1..] + tail;
      PlusTail(a, tail);
      HeadTail(a);
      Assoc([a[0]], a[1..], tail);
      if OperatorChar(a[0]) {
        pre, post := InsidePieces(a[1..], op, b, "");
        PieceInFront(a[0], x, cur);
        var c, d := if Blank(cur) then [] else [cur], if Blank([a[0]]) then [] else [[a[0]]];
        Assoc(d, pre, ["(", [op]] + post);
        Assoc(c, d + pre, ["(", [op]] + post);
        pre := c + (d + pre);
      } else {
        pre, post := InsidePieces(a[1..], op, b, cur + [a[0]]);
        PieceGoesOn(a[0], x, cur);
      }
    }
  }

  lemma PieceGoesOn(c: char, x: string, cur: string)
    requires !OperatorChar(c)
    ensures Pieces([c] + x, cur) == Pieces(x, cur + [c])
  {
    assert ([c] + x)[1..] == x;
  }

  lemma PieceInFront(c: char, x: string, cur: string)
    requires OperatorChar(c)
    ensures DropBlank(Pieces([c] + x, cur)) ==
            (if Blank(cur) then [] else [cur]) + ((if Blank([c]) then [] else [[c]]) + DropBlank(Pieces(x, "")))
  {
    hide DropBlank, Pieces;
    PiecesAt(c, x, cur);
    DropBlankOne(cur, [[c]] + Pieces(x, ""));
    DropBlankOne([c], Pieces(x, ""));
  }

  lemma InsideHere(op: char, b: string, cur: string)
    requires op == '&' || op == '|'
    ensures DropBlank(Pieces(['(', ' ', op] + b, cur)) ==
            (if Blank(cur) then [] else [cur]) + (["(", [op]] + DropBlank(Pieces(b, "")))
  {
    hide DropBlank, Pieces;
    var post := DropBlank(Pieces(b, ""));
    assert ['(', ' ', op] + b == ['('] + ([' '] + ([op] + b));
    PieceInFront('(', [' '] + ([op] + b), cur);
    PiecesOperator(' ', [op] + b);
    PiecesOperator(op, b);
    PlusEmpty(DropBlank(Pieces([op] + b, "")));
    assert ["("] + ([[op]] + post) == ["(", [op]] + post;
    assert !Blank(['(']) by { assert ['('][0] == '('; }
  }

  /** Where the elements have one, the tokens do. */
  lemma {:induction false} InsideTokens(es: seq<string>, pos: nat, at: nat, op: string)
    requires pos <= at && at + 1 < |es| && es[at] == "(" && es[at + 1] == op && (op == "&" || op == "|")
    requires TokensFrom(es, pos).Ok?
    ensures TokenInside(TokensFrom(es, pos).value)
    decreases at - pos
  {
    NotLicense(es[at]);
    NotLicense(es[at + 1]);
    if pos == at {
      var more := TokensFrom(es, pos + 2).value;
      assert TokensFrom(es, pos + 1).value == [OperatorToken(op)] + more;
      var ts := TokensFrom(es, pos).value;
      assert ts == [Open] + ([OperatorToken(op)] + more);
      assert ts[0] == Open && ts[1] == OperatorToken(op);
    } else {
      InsideTokens(es, pos + 1, at, op);
      hide MatchesLicense;
      InsideBehind(TokensFrom(es, pos).value, TokensFrom(es, pos + 1).value);
    }
  }

  lemma InsideBehind(ts: seq<Token>, more: seq<Token>)
    requires TokenInside(more) && |more| <= |ts| && ts[|ts| - |more|..] == more
    ensures TokenInside(ts)
  {
    var i :| 0 <= i < |more| - 1 && more[i] == Open && (more[i + 1] == And || more[i + 1] == Or);
    var k := |ts| - |more|;
    assert ts[k + i] == more[i] && ts[k + i + 1] == more[i + 1];
  }

  lemma NotLicense(e: string)
    requires OperatorElement(e)
    ensures !MatchesLicense(e)
  {
    assert |e| == 1 && !LicenseChar(e[0]) && e[0] != '\n';
  }

  /** What an expression is made of: nothing inside, and ends to which more can be joined. */
  predicate Joinable(ts: seq<Token>) {
    ts != [] && !TokenInside(ts) && ts[|ts| - 1] != Open && (ts[0].Name? || ts[0] == Open)
  }

  /** No expression has one. */
  lemma {:induction false} NeverInside(e: Expr)
    ensures Joinable(Tokens(e))
  {
    hide Joinable;
    match e
    case Lic(s) => JoinableName(s);
    case BinAnd(l, r) =>
      NeverInside(l);
      NeverInside(r);
      InsideBinary(Tokens(l), And, Tokens(r));
    case BinOr(l, r) =>
      NeverInside(l);
      NeverInside(r);
      InsideBinary(Tokens(l), Or, Tokens(r));
    case Group(i) =>
      NeverInside(i);
      InsideGroup(Tokens(i));
    case EmptyGroup => InsidePair();
    case Apply(f, a) =>
      NeverInside(f);
      NeverInside(a);
      InsideApply(Tokens(f), Tokens(a));
    case ApplyNone(f) =>
      NeverInside(f);
      InsidePair();
      InsideJoined(Tokens(f), [Open, Close]);
  }

  lemma JoinableName(s: string)
    ensures Joinable([Name(s)])
  {
    InsideOne(Name(s));
  }

  lemma InsideBinary(l: seq<Token>, t: Token, r: seq<Token>)
    requires Joinable(l) && Joinable(r)
    ensures Joinable(l + [t] + r)
  {
    hide TokenInside;
    InsideOne(t);
    InsideJoin(l, [t]);
    InsideJoin(l + [t], r);
  }

  lemma InsideGroup(i: seq<Token>)
    requires Joinable(i)
    ensures Joinable([Open] + i + [Close])
  {
    hide TokenInside;
    InsideOne(Open);
    InsideOne(Close);
    InsideJoin([Open], i);
    InsideJoin([Open] + i, [Close]);
  }

  lemma InsideApply(f: seq<Token>, a: seq<Token>)
    requires Joinable(f) && Joinable(a)
    ensures Joinable(f + [Open] + a + [Close])
  {
    hide TokenInside;
    InsideBinary(f, Open, a);
    InsideOne(Close);
    InsideJoin(f + [Open] + a, [Close]);
  }

  lemma InsideJoined(a: seq<Token>, b: seq<Token>)
    requires Joinable(a) && Joinable(b)
    ensures Joinable(a + b)
  {
    hide TokenInside;
    InsideJoin(a, b);
  }

  lemma InsidePair()
    ensures Joinable([Open, Close])
  {
    hide TokenInside;
    InsideOne(Open);
    InsideOne(Close);
    InsideJoin([Open], [Close]);
    assert [Open] + [Close] == [Open, Close];
  }

  lemma InsideOne(t: Token)
    ensures !TokenInside([t])
  {
  }

  lemma InsideJoin(a: seq<Token>, b: seq<Token>)
    requires !TokenInside(a) && !TokenInside(b) && a != [] && b != []
    requires a[|a| - 1] == Open ==> b[0] != And && b[0] != Or
    ensures !TokenInside(a + b) && (a + b)[|a + b| - 1] == b[|b| - 1] && (a + b)[0] == a[0]
  {
    var ts := a + b;
    forall i | 0 <= i < |ts| - 1 ensures !(ts[i] == Open && (ts[i + 1] == And || ts[i + 1] == Or)) {
      if i < |a| - 1 {
        assert ts[i] == a[i] && ts[i + 1] == a[i + 1];
      } else if i >= |a| {
        assert ts[i] == b[i - |a|] && ts[i + 1] == b[i + 1 - |a|];
      }
    }
  }

  // ---------------------------------------------------------------------
  // Spoilt texts

  /** Beyond repair: it starts with a closing bracket, or has an operator right
      behind an opening one. */
  predicate Spoilt(t: string) {
    (t != "" && t[0] == ']') || OperatorInside(t)
  }

  lemma SpoiltMore(a: string, b: string)
    requires Spoilt(a)
    ensures Spoilt(a + b)
  {
    InsideMore(a, b);
  }

  /** What parses is not spoilt. */
  lemma ParsedNotSpoilt(text: string, f: Expr)
    requires ParsedFrom(Rounded(text), f)
    ensures !Spoilt(text)
  {
    var s := Rounded(text);
    var ts := TokensFrom(Elements(s), 0).value;
    hide ParsedFrom;
    ParsedTokens(s, f);
    NeverInside(f);
    if text != "" && text[0] == ']' {
      ClosesFirst(s);
      assert false;
    }
    if OperatorInside(text) {
      InsideText(text);
      assert false;
    }
  }

  lemma ParsedTokens(s: string, f: Expr)
    requires ParsedFrom(s, f)
    ensures TokensFrom(Elements(s), 0) == Ok(Tokens(f))
  {
    ParsedFromIff(s, f);
  }

  lemma ClosesFirst(s: string)
    requires s != "" && s[0] == ')' && TokensFrom(Elements(s), 0).Ok?
    ensures TokensFrom(Elements(s), 0).value != [] && TokensFrom(Elements(s), 0).value[0] == Close
  {
    assert s == [')'] + s[1..];
    PiecesOperator(')', s[1..]);
    assert Elements(s)[0] == ")";
    NotLicense(")");
  }

  lemma InsideText(text: string)
    requires OperatorInside(text) && TokensFrom(Elements(Rounded(text)), 0).Ok?
    ensures TokenInside(TokensFrom(Elements(Rounded(text)), 0).value)
  {
    var s := Rounded(text);
    var i :| 0 <= i < |text| - 2 && InsideAt(text, i);
    var op := s[i + 2];
    assert s[i] == '(' && s[i + 1] == ' ' && op == text[i + 2];
    hide Rounded, TokensFrom, Pieces, DropBlank, TokenInside;
    CutThree(s, i);
    var pre, post := InsidePieces(s[..i], op, s[i + 3..], "");
    var es := Elements(s);
    MiddleTwo(pre, "(", [op], post);
    InsideTokens(es, 0, |pre|, [op]);
  }

  lemma CutThree(s: string, i: nat)
    requires i + 2 < |s|
    ensures s == s[..i] + ([s[i], s[i + 1], s[i + 2]] + s[i + 3..])
  {
  }

  lemma MiddleTwo(pre: seq<string>, x: string, y: string, post: seq<string>)
    ensures var es := pre + ([x, y] + post); |es| >= |pre| + 2 && es[|pre|] == x && es[|pre| + 1] == y
  {
  }
}
