/** The scope part of `ParseRequest` and `parseScope` in auth_server/server/server.go. */
module Scope {
  import opened GoStrings

  datatype AuthScope = AuthScope(typ: string, class_: string, name: string, actions: seq<string>)

  datatype ParseError = MalformedScope | InvalidScope(piece: string)

  // ---------------------------------------------------------------- parseScope

  predicate LowerAlnum(c: char) {
    'a' <= c <= 'z' || '0' <= c <= '9'
  }

  predicate AllAlnum(s: string) {
    forall i :: 0 <= i < |s| ==> LowerAlnum(s[i])
  }

  predicate HasAlnum(s: string) {
    exists i :: 0 <= i < |s| && LowerAlnum(s[i])
  }

  /** The longest beginning of lowercase letters and digits. */
  function Run(s: string): string {
    if s == "" || !LowerAlnum(s[0]) then "" else [s[0]] + Run(s[1..])
  }

  /** The first match of the scope expression's type group, which is not anchored; there are only two groups,
      so the class is always empty. */
  function ParseType(field: string): Result<string, ParseError> {
    if field == "" then Err(MalformedScope)
    else if LowerAlnum(field[0]) then Ok(Run(field))
    else ParseType(field[1..])
  }

  /** `typ` is the first maximal run of lowercase letters and digits in `field`. */
  ghost predicate FirstRun(field: string, pre: string, typ: string, post: string) {
    && field == pre + typ + post
    && typ != "" && AllAlnum(typ)
    && (forall i :: 0 <= i < |pre| ==> !LowerAlnum(pre[i]))
    && (post == "" || !LowerAlnum(post[0]))
  }

  lemma {:induction false} RunIsLongest(s: string)
    ensures Run(s) <= s && AllAlnum(Run(s))
    ensures s[|Run(s)|..] == "" || !LowerAlnum(s[|Run(s)|..][0])
  {
    if s != "" && LowerAlnum(s[0]) {
      RunIsLongest(s[1..]);
      assert s == [s[0]] + s[1..];
      assert s[|Run(s)|..] == s[1..][|Run(s[1..])|..];
    }
  }

  /** A type is found iff the field has a lowercase letter or digit at all, and it is the first run of them. */
  lemma {:induction false} ParseTypeFindsTheFirstRun(field: string) returns (pre: string, post: string)
    ensures ParseType(field).Ok? <==> HasAlnum(field)
    ensures ParseType(field).Ok? ==> FirstRun(field, pre, ParseType(field).value, post)
    ensures ParseType(field).Err? ==> ParseType(field).error == MalformedScope
  {
    pre, post := "", "";
    if field == "" {
    } else if LowerAlnum(field[0]) {
      RunIsLongest(field);
      post := field[|Run(field)|..];
      assert field == "" + Run(field) + post;
    } else {
      var rest := field[1..];
      pre, post := ParseTypeFindsTheFirstRun(rest);
      pre := [field[0]] + pre;
      assert field == [field[0]] + rest;
      if HasAlnum(rest) {
        var i :| 0 <= i < |rest| && LowerAlnum(rest[i]);
        assert LowerAlnum(field[i + 1]);
      }
      if HasAlnum(field) {
        var i :| 0 <= i < |field| && LowerAlnum(field[i]);
        assert LowerAlnum(rest[i - 1]);
      }
    }
  }

  lemma {:induction false} RunOfAlnum(s: string)
    requires AllAlnum(s)
    ensures Run(s) == s
  {
    if s != "" { RunOfAlnum(s[1..]); }
  }

  // ---------------------------------------------------------------- one piece

  function ParsePiece(piece: string): Result<AuthScope, ParseError> {
    var parts := Split(piece, ':');
    match ParseType(parts[0])
    case Err(e) => Err(e)
    case Ok(typ) =>
      if |parts| == 3 then Ok(AuthScope(typ, "", parts[1], Sort(Split(parts[2], ','))))
      else if |parts| == 4 then Ok(AuthScope(typ, "", parts[1] + ":" + parts[2], Sort(Split(parts[3], ','))))
      else Err(InvalidScope(piece))
  }

  /** Exactly which pieces are accepted, which error the others get, and what an accepted piece means: the name
      is the text between the first colon and the last, the actions are what follows, sorted. */
  lemma ParsePieceIff(piece: string)
    ensures var parts := Split(piece, ':');
      && (ParsePiece(piece).Ok? <==> HasAlnum(parts[0]) && (|parts| == 3 || |parts| == 4))
      && (!HasAlnum(parts[0]) ==> ParsePiece(piece) == Err(MalformedScope))
      && (HasAlnum(parts[0]) && ParsePiece(piece).Err? ==> ParsePiece(piece) == Err(InvalidScope(piece)))
    ensures ParsePiece(piece).Ok? ==>
      var s := ParsePiece(piece).value;
      && s.class_ == ""
      && (exists first, pre, post, last ::
            && piece == first + ":" + s.name + ":" + last
            && ':' !in first && ':' !in last
            && FirstRun(first, pre, s.typ, post)
            && s.actions == Sort(Split(last, ',')))
  {
    var parts := Split(piece, ':');
    var pre, post := ParseTypeFindsTheFirstRun(parts[0]);
    JoinSplit(piece, ':');
    if ParsePiece(piece).Ok? {
      var s := ParsePiece(piece).value;
      var first, last := parts[0], parts[|parts| - 1];
      assert piece == first + ":" + s.name + ":" + last by { JoinOfFields(parts); }
      assert FirstRun(first, pre, s.typ, post);
      assert ':' !in first && ':' !in last;
    }
  }

  lemma JoinOfFields(parts: seq<string>)
    ensures |parts| == 3 ==> Join(parts, ':') == parts[0] + ":" + parts[1] + ":" + parts[2]
    ensures |parts| == 4 ==> Join(parts, ':') == parts[0] + ":" + (parts[1] + ":" + parts[2]) + ":" + parts[3]
  {
    if |parts| == 3 {
      assert parts[1..] == [parts[1], parts[2]] && parts[1..][1..] == [parts[2]];
      assert Join(parts[1..], ':') == parts[1] + ":" + parts[2];
    } else if |parts| == 4 {
      assert parts[1..] == [parts[1], parts[2], parts[3]];
      assert parts[1..][1..] == [parts[2], parts[3]] && parts[1..][1..][1..] == [parts[3]];
      assert Join(parts[1..][1..], ':') == parts[2] + ":" + parts[3];
      assert Join(parts[1..], ':') == parts[1] + ":" + (parts[2] + ":" + parts[3]);
    }
  }

  // ---------------------------------------------------------------- all the pieces of a request

  /** Pieces are parsed in order and the first that fails decides the error. */
  function ParsePieces(pieces: seq<string>): Result<seq<AuthScope>, ParseError> {
    if pieces == [] then Ok([])
    else
      match ParsePiece(pieces[0])
      case Err(e) => Err(e)
      case Ok(s) =>
        match ParsePieces(pieces[1..])
        case Err(e) => Err(e)
        case Ok(rest) => Ok([s] + rest)
  }

  function Pieces(values: seq<string>): seq<string> {
    if values == [] then [] else Split(values[0], ' ') + Pieces(values[1..])
  }

  /** The scopes of a request; scope parameters are looked at only if the first one is not empty. */
  function ParseScopes(values: seq<string>): Result<seq<AuthScope>, ParseError> {
    if values == [] || values[0] == "" then Ok([]) else ParsePieces(Pieces(values))
  }

  ghost predicate FirstRefused(pieces: seq<string>, i: nat, e: ParseError) {
    i < |pieces| && ParsePiece(pieces[i]) == Err(e) && forall j :: 0 <= j < i ==> ParsePiece(pieces[j]).Ok?
  }

  /** The pieces parse iff each of them does, and then one by one; otherwise the first that does not gives the error. */
  lemma {:induction false} ParsePiecesIff(pieces: seq<string>)
    ensures ParsePieces(pieces).Ok? <==> forall i :: 0 <= i < |pieces| ==> ParsePiece(pieces[i]).Ok?
    ensures ParsePieces(pieces).Ok? ==>
      && |ParsePieces(pieces).value| == |pieces|
      && forall i :: 0 <= i < |pieces| ==> ParsePiece(pieces[i]) == Ok(ParsePieces(pieces).value[i])
    ensures ParsePieces(pieces).Err? ==> exists i: nat :: FirstRefused(pieces, i, ParsePieces(pieces).error)
  {
    if pieces != [] {
      var rest := pieces[1..];
      assert forall i :: 0 <= i < |rest| ==> rest[i] == pieces[i + 1];
      if ParsePiece(pieces[0]).Ok? {
        ParsePiecesIff(rest);
        if ParsePieces(rest).Err? {
          var k: nat :| FirstRefused(rest, k, ParsePieces(rest).error);
          assert FirstRefused(pieces, k + 1, ParsePieces(pieces).error) by {
            forall j | 0 <= j < k + 1 ensures ParsePiece(pieces[j]).Ok? {
              assert j > 0 ==> pieces[j] == rest[j - 1];
            }
          }
        }
      } else {
        assert FirstRefused(pieces, 0, ParsePieces(pieces).error);
      }
    }
  }

  lemma {:induction false} ParsePiecesConcat(a: seq<string>, b: seq<string>)
    ensures ParsePieces(a + b) ==
      match ParsePieces(a)
      case Err(e) => Err(e)
      case Ok(x) => (match ParsePieces(b) case Err(e) => Err(e) case Ok(y) => Ok(x + y))
  {
    if a == [] {
      assert a + b == b;
      if ParsePieces(b).Ok? { assert [] + ParsePieces(b).value == ParsePieces(b).value; }
    } else {
      assert (a + b)[1..] == a[1..] + b;
      ParsePiecesConcat(a[1..], b);
      if ParsePiece(a[0]).Ok? && ParsePieces(a[1..]).Ok? && ParsePieces(b).Ok? {
        var s, x, y := ParsePiece(a[0]).value, ParsePieces(a[1..]).value, ParsePieces(b).value;
        assert [s] + (x + y) == [s] + x + y;
      }
    }
  }

  /** The scope loop of `ParseRequest`: it sorts the actions of each scope before appending it. */
  method ParseRequestScopes(values: seq<string>) returns (r: Result<seq<AuthScope>, ParseError>)
    ensures r == ParseScopes(values)
  {
    if |values| == 0 || values[0] == "" { return Ok([]); }
    var scopes: seq<AuthScope> := [];
    assert values[0..] == values;
    assert ParsePieces(Pieces(values)).Ok? ==> [] + ParsePieces(Pieces(values)).value == ParsePieces(Pieces(values)).value;
    for i := 0 to |values|
      invariant ParseScopes(values) == After(scopes, Pieces(values[i..]))
    {
      assert values[i..][1..] == values[i + 1..];
      var pieces, rest := Split(values[i], ' '), Pieces(values[i + 1..]);
      for j := 0 to |pieces|
        invariant ParseScopes(values) == After(scopes, pieces[j..] + rest)
      {
        AfterStep(scopes, pieces, j, rest);
        var parts := Split(pieces[j], ':');
        var typ := ParseType(parts[0]);
        if typ.Err? { return Err(typ.error); }
        var scope: AuthScope;
        if |parts| == 3 {
          scope := AuthScope(typ.value, "", parts[1], Split(parts[2], ','));
        } else if |parts| == 4 {
          scope := AuthScope(typ.value, "", parts[1] + ":" + parts[2], Split(parts[3], ','));
        } else {
          return Err(InvalidScope(pieces[j]));
        }
        scope := scope.(actions := Sort(scope.actions));
        scopes := scopes + [scope];
      }
      assert pieces[|pieces|..] + rest == rest;
    }
    assert values[|values|..] == [] && scopes + [] == scopes;
    r := Ok(scopes);
  }

  /** The scopes already parsed, followed by those of the remaining pieces. */
  function After(done: seq<AuthScope>, pieces: seq<string>): Result<seq<AuthScope>, ParseError> {
    match ParsePieces(pieces)
    case Err(e) => Err(e)
    case Ok(more) => Ok(done + more)
  }

  lemma AfterStep(done: seq<AuthScope>, pieces: seq<string>, j: nat, rest: seq<string>)
    requires j < |pieces|
    ensures After(done, pieces[j..] + rest) ==
      match ParsePiece(pieces[j])
      case Err(e) => Err(e)
      case Ok(s) => After(done + [s], pieces[j + 1..] + rest)
  {
    var all := pieces[j..] + rest;
    assert all[0] == pieces[j] && all[1..] == pieces[j + 1..] + rest;
    if ParsePiece(pieces[j]).Ok? && ParsePieces(all[1..]).Ok? {
      var s, more := ParsePiece(pieces[j]).value, ParsePieces(all[1..]).value;
      assert done + ([s] + more) == done + [s] + more;
    }
  }

  // ---------------------------------------------------------------- repeated parameters

  lemma {:induction false} PiecesOfJoined(values: seq<string>)
    requires values != []
    ensures Split(Join(values, ' '), ' ') == Pieces(values)
  {
    if |values| == 1 {
      assert Pieces(values[1..]) == [];
      assert Split(values[0], ' ') + [] == Split(values[0], ' ');
    } else {
      PiecesOfJoined(values[1..]);
      SplitConcat(values[0], Join(values[1..], ' '), ' ');
    }
  }

  /** Only if the first scope parameter has something in it are scopes looked for, and then in all of them, between
      spaces; without, the request is for authentication alone, whatever the others hold. */
  lemma ScopesAreBetweenSpaces(values: seq<string>)
    ensures values == [] || values[0] == "" ==> ParseScopes(values) == Ok([])
    ensures values != [] && values[0] != "" ==> ParseScopes(values) == ParsePieces(Split(Join(values, ' '), ' '))
  {
    if values != [] && values[0] != "" { PiecesOfJoined(values); }
  }

  /** Scope parameters given separately parse like one parameter that joins them with spaces: same scopes, same
      error. */
  lemma RepeatedParametersParseLikeJoinedOnes(values: seq<string>)
    requires values != [] && values[0] != ""
    ensures ParseScopes(values) == ParseScopes([Join(values, ' ')])
  {
    var joined := [Join(values, ' ')];
    PiecesOfJoined(values);
    assert joined[1..] == [] && Pieces(joined) == Split(joined[0], ' ') + [];
    assert Split(joined[0], ' ') + [] == Split(joined[0], ' ');
    assert |joined[0]| >= |values[0]|;
  }

  // ---------------------------------------------------------------- printing and parsing

  function Print(s: AuthScope): string {
    s.typ + ":" + s.name + ":" + Join(s.actions, ',')
  }

  function PrintAll(scopes: seq<AuthScope>): (texts: seq<string>)
    ensures |texts| == |scopes| && forall i :: 0 <= i < |scopes| ==> texts[i] == Print(scopes[i])
  {
    seq(|scopes|, i requires 0 <= i < |scopes| => Print(scopes[i]))
  }

  /** What a client can ask for: a plain type, a name with at most one colon, and actions, none of which holds a
      separator of the grammar. */
  ghost predicate Printable(s: AuthScope) {
    && s.typ != "" && AllAlnum(s.typ)
    && ' ' !in s.name && |Split(s.name, ':')| <= 2
    && s.actions != []
    && forall i :: 0 <= i < |s.actions| ==> ',' !in s.actions[i] && ':' !in s.actions[i] && ' ' !in s.actions[i]
  }

  function Normal(s: AuthScope): AuthScope {
    s.(class_ := "", actions := Sort(s.actions))
  }

  lemma {:induction false} JoinAvoids(parts: seq<string>, sep: char, c: char)
    requires c != sep && forall i :: 0 <= i < |parts| ==> c !in parts[i]
    ensures c !in Join(parts, sep)
  {
    if |parts| > 1 { JoinAvoids(parts[1..], sep, c); }
  }

  lemma FieldsOfPrinted(s: AuthScope)
    requires Printable(s)
    ensures Split(Print(s), ':') == [s.typ] + Split(s.name, ':') + [Join(s.actions, ',')]
    ensures ' ' !in Print(s) && Print(s) != ""
  {
    var last := Join(s.actions, ',');
    JoinAvoids(s.actions, ',', ':');
    JoinAvoids(s.actions, ',', ' ');
    SplitWhole(last, ':');
    SplitWhole(s.typ, ':');
    SplitConcat(s.name, last, ':');
    SplitConcat(s.typ, s.name + ":" + last, ':');
    assert Print(s) == s.typ + ":" + (s.name + ":" + last);
    assert [s.typ] + (Split(s.name, ':') + [last]) == [s.typ] + Split(s.name, ':') + [last];
  }

  lemma PrintedPieceParses(s: AuthScope)
    requires Printable(s)
    ensures ParsePiece(Print(s)) == Ok(Normal(s))
  {
    var names, last := Split(s.name, ':'), Join(s.actions, ',');
    FieldsOfPrinted(s);
    RunOfAlnum(s.typ);
    SplitJoin(s.actions, ',');
    JoinSplit(s.name, ':');
    var parts := Split(Print(s), ':');
    assert parts == [s.typ] + names + [last];
    if |names| == 1 {
      assert s.name == names[0];
      assert parts[1] == s.name && parts[2] == last && |parts| == 3;
    } else {
      assert |names| == 2 && |names[1..]| == 1;
      assert s.name == names[0] + ":" + names[1];
      assert parts[1] == names[0] && parts[2] == names[1] && parts[3] == last && |parts| == 4;
    }
  }

  function NormalAll(scopes: seq<AuthScope>): (r: seq<AuthScope>)
    ensures |r| == |scopes| && forall i :: 0 <= i < |scopes| ==> r[i] == Normal(scopes[i])
  {
    seq(|scopes|, i requires 0 <= i < |scopes| => Normal(scopes[i]))
  }

  lemma ParseCons(piece: string, pieces: seq<string>, s: AuthScope, more: seq<AuthScope>)
    requires ParsePiece(piece) == Ok(s) && ParsePieces(pieces) == Ok(more)
    ensures ParsePieces([piece] + pieces) == Ok([s] + more)
  {
    assert ([piece] + pieces)[1..] == pieces;
  }

  lemma {:induction false} ParseEach(pieces: seq<string>, scopes: seq<AuthScope>)
    requires |pieces| == |scopes|
    requires forall i :: 0 <= i < |pieces| ==> ParsePiece(pieces[i]) == Ok(scopes[i])
    ensures ParsePieces(pieces) == Ok(scopes)
  {
    if pieces != [] {
      ParseEach(pieces[1..], scopes[1..]);
      ParseCons(pieces[0], pieces[1..], scopes[0], scopes[1..]);
      assert pieces == [pieces[0]] + pieces[1..] && scopes == [scopes[0]] + scopes[1..];
    }
  }

  /** Parsing undoes printing, for every list of scopes a client can ask for, up to the order of the actions. */
  lemma ParseUndoesPrint(scopes: seq<AuthScope>)
    requires forall i :: 0 <= i < |scopes| ==> Printable(scopes[i])
    ensures ParseScopes([Join(PrintAll(scopes), ' ')]) == Ok(NormalAll(scopes))
  {
    var texts := PrintAll(scopes);
    if scopes == [] {
      assert texts == [] && NormalAll(scopes) == [];
    } else {
      forall i | 0 <= i < |texts|
        ensures ' ' !in texts[i] && texts[i] != "" && ParsePiece(texts[i]) == Ok(NormalAll(scopes)[i])
      {
        FieldsOfPrinted(scopes[i]);
        PrintedPieceParses(scopes[i]);
      }
      SplitJoin(texts, ' ');
      var value := Join(texts, ' ');
      assert |value| >= |texts[0]|;
      assert [value][1..] == [] && Pieces([value]) == texts + [] == texts;
      ParseEach(texts, NormalAll(scopes));
    }
  }
}
