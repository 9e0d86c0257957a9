/** License expressions: tokens, the expression grammar, and its parser.
    The grammar is the part of the Python expression grammar (section 6.9 of
    the Python Language Reference) that the tokens can reach. */
module License {
  import opened Text

  datatype Token = Name(s: string) | And | Or | Open | Close

  datatype Error = SyntaxError | InvalidLicense(element: string)

  // ---------------------------------------------------------------------
  // get_elements

  predicate OperatorChar(c: char) {
    c in "&|() "
  }

  /** One character of [a-zA-Z0-9.+_\-]. */
  predicate LicenseChar(c: char) {
    'a' <= c <= 'z' || 'A' <= c <= 'Z' || '0' <= c <= '9' || c in ".+_-"
  }

  predicate IsLicense(s: string) {
    s != "" && forall i | 0 <= i < |s| :: LicenseChar(s[i])
  }

  /** license_pattern.match: its $ also matches before one final newline. */
  predicate MatchesLicense(s: string) {
    IsLicense(s) || (s != "" && s[|s| - 1] == '\n' && IsLicense(s[..|s| - 1]))
  }

  predicate Blank(s: string) {
    forall i | 0 <= i < |s| :: IsSpace(s[i])
  }

  /** license_operator.split(s): the operators and what lies between them;
      cur is the piece being read. */
  function Pieces(s: string, cur: string): seq<string>
    decreases |s|
  {
    if s == "" then [cur]
    else if OperatorChar(s[0]) then [cur, [s[0]]] + Pieces(s[1..], "")
    else Pieces(s[1..], cur + [s[0]])
  }

  function DropBlank(pieces: seq<string>): seq<string> {
    if pieces == [] then []
    else (if Blank(pieces[0]) then [] else [pieces[0]]) + DropBlank(pieces[1..])
  }

  predicate OperatorElement(e: string) {
    e == "&" || e == "|" || e == "(" || e == ")"
  }

  function OperatorToken(e: string): Token
    requires OperatorElement(e)
  {
    if e == "&" then And else if e == "|" then Or else if e == "(" then Open else Close
  }

  /** The tokens of elements[pos..]: an "&" goes between adjacent licenses. */
  function TokensFrom(elements: seq<string>, pos: nat): Result<seq<Token>, Error>
    requires pos <= |elements|
    decreases |elements| - pos
  {
    if pos == |elements| then Ok([])
    else
      var e := elements[pos];
      if MatchesLicense(e) then
        Prefixed(if pos > 0 && MatchesLicense(elements[pos - 1]) then [And, Name(e)] else [Name(e)],
            TokensFrom(elements, pos + 1))
      else if OperatorElement(e) then Prefixed([OperatorToken(e)], TokensFrom(elements, pos + 1))
      else Err(InvalidLicense(e))
  }

  function Prefixed(ts: seq<Token>, rest: Result<seq<Token>, Error>): Result<seq<Token>, Error> {
    match rest
    case Ok(more) => Ok(ts + more)
    case Err(e) => Err(e)
  }

  function Elements(licensestr: string): seq<string> {
    DropBlank(Pieces(licensestr, ""))
  }

  /** LicenseVisitor.get_elements */
  method GetElements(licensestr: string) returns (r: Result<seq<Token>, Error>)
    ensures r == TokensFrom(Elements(licensestr), 0)
  {
    var newElements: seq<Token> := [];
    var elements := Elements(licensestr);
    hide Pieces, DropBlank, MatchesLicense;
    PrefixedNil(TokensFrom(elements, 0));
    for pos := 0 to |elements|
      invariant TokensFrom(elements, 0) == Prefixed(newElements, TokensFrom(elements, pos))
    {
      var element := elements[pos];
      ghost var rest := TokensFrom(elements, pos + 1);
      if MatchesLicense(element) {
        if pos > 0 && MatchesLicense(elements[pos - 1]) {
          PrefixedTwice(newElements, [And, Name(element)], rest);
          AppendTwo(newElements, And, Name(element));
          newElements := newElements + [And];
        } else {
          PrefixedTwice(newElements, [Name(element)], rest);
        }
        newElements := newElements + [Name(element)];
      } else if !OperatorElement(element) {
        return Err(InvalidLicense(element));
      } else {
        PrefixedTwice(newElements, [OperatorToken(element)], rest);
        newElements := newElements + [OperatorToken(element)];
      }
    }
    PlusEmpty(newElements);
    return Ok(newElements);
  }

  lemma PrefixedNil(rest: Result<seq<Token>, Error>)
    ensures Prefixed([], rest) == rest
  {
    if rest.Ok? { PlusEmpty(rest.value); }
  }

  lemma PrefixedTwice(a: seq<Token>, b: seq<Token>, rest: Result<seq<Token>, Error>)
    ensures Prefixed(a, Prefixed(b, rest)) == Prefixed(a + b, rest)
  {
    if rest.Ok? { Assoc(a, b, rest.value); }
  }

  lemma AppendTwo(a: seq<Token>, s: Token, t: Token)
    ensures a + [s, t] == a + [s] + [t]
  {
  }

  // ---------------------------------------------------------------------
  // The grammar: "&" binds tighter than "|", both associate to the left

  /** A parsed expression with its brackets kept. EmptyGroup is "()"; Apply and
      ApplyNone are an operand directly followed by a bracket, which Python
      reads as a call, or as a subscript when the brackets are square. */
  datatype Expr =
    | Lic(s: string)
    | BinAnd(left: Expr, right: Expr)
    | BinOr(left: Expr, right: Expr)
    | Group(inner: Expr)
    | EmptyGroup
    | Apply(fun: Expr, arg: Expr)
    | ApplyNone(fun: Expr)

  /** The tokens an expression was read from. */
  function Tokens(e: Expr): seq<Token> {
    match e
    case Lic(s) => [Name(s)]
    case BinAnd(l, r) => Tokens(l) + [And] + Tokens(r)
    case BinOr(l, r) => Tokens(l) + [Or] + Tokens(r)
    case Group(i) => [Open] + Tokens(i) + [Close]
    case EmptyGroup => [Open, Close]
    case Apply(f, a) => Tokens(f) + [Open] + Tokens(a) + [Close]
    case ApplyNone(f) => Tokens(f) + [Open, Close]
  }

  /** What each level of the grammar can produce; a subscript cannot be empty. */
  predicate IsPrimary(e: Expr, square: bool)
    decreases e, 0
  {
    match e
    case Lic(_) | EmptyGroup => true
    case Group(i) => IsOrExpr(i, square)
    case Apply(f, a) => IsPrimary(f, square) && IsOrExpr(a, square)
    case ApplyNone(f) => !square && IsPrimary(f, square)
    case _ => false
  }

  predicate IsAndExpr(e: Expr, square: bool)
    decreases e, 1
  {
    if e.BinAnd? then IsAndExpr(e.left, square) && IsPrimary(e.right, square) else IsPrimary(e, square)
  }

  predicate IsOrExpr(e: Expr, square: bool)
    decreases e, 2
  {
    if e.BinOr? then IsOrExpr(e.left, square) && IsAndExpr(e.right, square) else IsAndExpr(e, square)
  }

  type Parsed = Option<(Expr, seq<Token>)>

  /** p has read the tokens of its expression off ts, after those of done. */
  ghost predicate Read(p: Parsed, done: seq<Token>, ts: seq<Token>) {
    p.Some? ==> |p.value.1| <= |ts| && Tokens(p.value.0) + p.value.1 == done + ts
  }

  lemma ReadJoin(e: Expr, t: Token, r: Expr, ts: seq<Token>, rest: seq<Token>)
    requires ts != [] && ts[0] == t && Tokens(r) + rest == [] + ts[1..]
    ensures Tokens(e) + [t] + Tokens(r) + rest == Tokens(e) + ts
  {
    Regroup(Tokens(e), [t], Tokens(r), rest);
    HeadTail(ts);
    PlusEmpty(ts[1..]);
  }

  lemma ReadCall(e: Expr, a: Expr, ts: seq<Token>, rest: seq<Token>)
    requires ts != [] && ts[0] == Open && rest != [] && rest[0] == Close && Tokens(a) + rest == [] + ts[1..]
    ensures Tokens(Apply(e, a)) + rest[1..] == Tokens(e) + ts
  {
    Regroup(Tokens(e) + [Open], Tokens(a), [Close], rest[1..]);
    Assoc(Tokens(e), [Open], Tokens(a) + rest);
    HeadTail(rest);
    HeadTail(ts);
    PlusEmpty(ts[1..]);
  }

  lemma ReadCallNone(e: Expr, ts: seq<Token>)
    requires |ts| > 1 && ts[0] == Open && ts[1] == Close
    ensures Tokens(ApplyNone(e)) + ts[2..] == Tokens(e) + ts
  {
    Assoc(Tokens(e), [Open, Close], ts[2..]);
    assert [Open, Close] + ts[2..] == ts;
  }

  function ParseOr(ts: seq<Token>, square: bool): (p: Parsed)
    ensures Read(p, [], ts) && (p.Some? ==> |p.value.1| < |ts| && IsOrExpr(p.value.0, square))
    decreases |ts|, 5
  {
    match ParseAnd(ts, square)
    case None => None
    case Some((e, rest)) =>
      assert !e.BinOr? by { assert IsAndExpr(e, square) && (!e.BinAnd? ==> IsPrimary(e, square)); }
      OrTail(e, rest, square)
  }

  function OrTail(e: Expr, ts: seq<Token>, square: bool): (p: Parsed)
    requires IsOrExpr(e, square)
    ensures Read(p, Tokens(e), ts) && (p.Some? ==> IsOrExpr(p.value.0, square))
    decreases |ts|, 4
  {
    if ts == [] || ts[0] != Or then Some((e, ts))
    else
      match ParseAnd(ts[1..], square)
      case None => None
      case Some((r, rest)) =>
        ReadJoin(e, Or, r, ts, rest);
        OrTail(BinOr(e, r), rest, square)
  }

  function ParseAnd(ts: seq<Token>, square: bool): (p: Parsed)
    ensures Read(p, [], ts) && (p.Some? ==> |p.value.1| < |ts| && IsAndExpr(p.value.0, square))
    decreases |ts|, 3
  {
    match ParsePrimary(ts, square)
    case None => None
    case Some((e, rest)) => AndTail(e, rest, square)
  }

  function AndTail(e: Expr, ts: seq<Token>, square: bool): (p: Parsed)
    requires IsAndExpr(e, square)
    ensures Read(p, Tokens(e), ts) && (p.Some? ==> IsAndExpr(p.value.0, square))
    decreases |ts|, 2
  {
    if ts == [] || ts[0] != And then Some((e, ts))
    else
      match ParsePrimary(ts[1..], square)
      case None => None
      case Some((r, rest)) =>
        ReadJoin(e, And, r, ts, rest);
        AndTail(BinAnd(e, r), rest, square)
  }

  function ParsePrimary(ts: seq<Token>, square: bool): (p: Parsed)
    ensures Read(p, [], ts) && (p.Some? ==> |p.value.1| < |ts| && IsPrimary(p.value.0, square))
    decreases |ts|, 1
  {
    if ts == [] then None
    else if ts[0].Name? then PrimaryTail(Lic(ts[0].s), ts[1..], square)
    else if ts[0] == Open then
      if |ts| > 1 && ts[1] == Close then PrimaryTail(EmptyGroup, ts[2..], square)
      else
        match ParseOr(ts[1..], square)
        case None => None
        case Some((e, rest)) =>
          if rest != [] && rest[0] == Close then
            Regroup([Open], Tokens(e), [Close], rest[1..]);
            HeadTail(rest);
            HeadTail(ts);
            PrimaryTail(Group(e), rest[1..], square)
          else None
    else None
  }

  function PrimaryTail(e: Expr, ts: seq<Token>, square: bool): (p: Parsed)
    requires IsPrimary(e, square)
    ensures Read(p, Tokens(e), ts) && (p.Some? ==> IsPrimary(p.value.0, square))
    decreases |ts|, 0
  {
    if ts == [] || ts[0] != Open then Some((e, ts))
    else if |ts| > 1 && ts[1] == Close then
      if square then None
      else
        ReadCallNone(e, ts);
        PrimaryTail(ApplyNone(e), ts[2..], square)
    else
      match ParseOr(ts[1..], square)
      case None => None
      case Some((a, rest)) =>
        if rest != [] && rest[0] == Close then
          ReadCall(e, a, ts, rest);
          PrimaryTail(Apply(e, a), rest[1..], square)
        else None
  }

  /** ast.parse on the elements: None for the empty module of an empty string. */
  function Parse(ts: seq<Token>, square: bool): Result<Option<Expr>, Error> {
    if exists i | 0 <= i < |ts| :: ts[i].Name? && !IsLicense(ts[i].s) then Err(SyntaxError)
    else if ts == [] then Ok(None)
    else
      match ParseOr(ts, square)
      case Some((e, rest)) => if rest == [] then Ok(Some(e)) else Err(SyntaxError)
      case None => Err(SyntaxError)
  }
}
