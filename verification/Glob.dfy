/** The two standard-library functions behind an ACL pattern: `path.Match`, as it works chunk by chunk, and
    `regexp.QuoteMeta`. */
module Glob {
  import opened GoStrings

  datatype Range = Range(lo: char, hi: char)

  datatype Term =
    | Star
    | Any
    | Class(negated: bool, ranges: seq<Range>)
    | Exactly(c: char)

  // ---------------------------------------------------------------- reading a pattern

  /** One possibly escaped end of a range. It is malformed at `-`, at `]`, and at the end of the pattern. */
  function ReadEnd(p: string): Option<(char, string)> {
    if p == "" || p[0] == '-' || p[0] == ']' then None
    else
      var q := if p[0] == '\\' then p[1..] else p;
      if |q| < 2 then None else Some((q[0], q[1..]))
  }

  function ReadRange(p: string): (r: Option<(Range, string)>)
    ensures r.Some? ==> 0 < |r.value.1| < |p|
  {
    match ReadEnd(p)
    case None => None
    case Some((lo, q)) =>
      if q[0] != '-' then Some((Range(lo, lo), q))
      else
        match ReadEnd(q[1..])
        case None => None
        case Some((hi, rest)) => Some((Range(lo, hi), rest))
  }

  function ReadRanges(p: string, soFar: seq<Range>): (r: Option<(seq<Range>, string)>)
    ensures r.Some? ==> |r.value.1| < |p|
    decreases |p|
  {
    if p != "" && p[0] == ']' && soFar != [] then Some((soFar, p[1..]))
    else
      match ReadRange(p)
      case None => None
      case Some((range, rest)) => ReadRanges(rest, soFar + [range])
  }

  /** The terms of a pattern, or nothing if it is malformed. */
  function Parse(p: string): Option<seq<Term>>
    decreases |p|
  {
    if p == "" then Some([])
    else if p[0] == '*' then Then(Star, Parse(p[1..]))
    else if p[0] == '?' then Then(Any, Parse(p[1..]))
    else if p[0] == '\\' then (if |p| == 1 then None else Then(Exactly(p[1]), Parse(p[2..])))
    else if p[0] == '[' then
      var negated := |p| > 1 && p[1] == '^';
      match ReadRanges(if negated then p[2..] else p[1..], [])
      case None => None
      case Some((ranges, rest)) => Then(Class(negated, ranges), Parse(rest))
    else Then(Exactly(p[0]), Parse(p[1..]))
  }

  function Then(t: Term, rest: Option<seq<Term>>): Option<seq<Term>> {
    if rest.None? then None else Some([t] + rest.value)
  }

  // ---------------------------------------------------------------- matching

  predicate Fits(t: Term, c: char) {
    match t
    case Star => false
    case Any => c != '/'
    case Class(negated, ranges) => negated != exists i :: 0 <= i < |ranges| && ranges[i].lo <= c <= ranges[i].hi
    case Exactly(d) => c == d
  }

  /** `matchChunk`: what is left of the name after terms that match one character each. */
  function MatchChunk(chunk: seq<Term>, name: string): (left: Option<string>)
    ensures left.Some? ==> |left.value| <= |name|
  {
    if chunk == [] then Some(name)
    else if name == "" || !Fits(chunk[0], name[0]) then None
    else MatchChunk(chunk[1..], name[1..])
  }

  /** `scanChunk`: how many terms come before the next star. */
  function ChunkLength(terms: seq<Term>): (n: nat)
    ensures n <= |terms|
    ensures forall i :: 0 <= i < n ==> !terms[i].Star?
    ensures n < |terms| ==> terms[n].Star?
  {
    if terms == [] || terms[0].Star? then 0 else 1 + ChunkLength(terms[1..])
  }

  function DropStars(terms: seq<Term>): (r: seq<Term>)
    ensures |r| <= |terms|
    ensures r != [] ==> !r[0].Star?
    ensures terms != [] && terms[0].Star? ==> |r| < |terms|
  {
    if terms != [] && terms[0].Star? then DropStars(terms[1..]) else terms
  }

  /** Where the chunk after a star is first found when the star skips at least one character; a star skips
      no slash, and the last chunk of a pattern has to reach the end of the name. */
  function Skip(chunk: seq<Term>, name: string, last: bool): (left: Option<string>)
    ensures left.Some? ==> |left.value| < |name|
  {
    if name == "" || name[0] == '/' then None
    else
      match MatchChunk(chunk, name[1..])
      case Some(left) => if last && left != "" then Skip(chunk, name[1..], last) else Some(left)
      case None => Skip(chunk, name[1..], last)
  }

  predicate MatchTerms(terms: seq<Term>, name: string)
    decreases |terms|
  {
    if terms == [] then name == ""
    else
      var star := terms[0].Star?;
      var afterStars := DropStars(terms);
      var n := ChunkLength(afterStars);
      var chunk, rest := afterStars[..n], afterStars[n..];
      if star && chunk == [] then '/' !in name
      else
        var left := MatchChunk(chunk, name);
        if left.Some? && (left.value == "" || rest != []) then MatchTerms(rest, left.value)
        else
          var skipped := if star then Skip(chunk, name, rest == []) else None;
          skipped.Some? && MatchTerms(rest, skipped.value)
  }

  /** `path.Match` returned true and no error. */
  predicate Match(pattern: string, name: string) {
    Parse(pattern).Some? && MatchTerms(Parse(pattern).value, name)
  }

  // ---------------------------------------------------------------- what a match means

  /** The terms fill the name, whatever is matched first: a star takes some beginning without a slash, every other
      term takes one character. */
  ghost predicate Fill(terms: seq<Term>, name: string)
    decreases |terms|
  {
    if terms == [] then name == ""
    else
      match terms[0]
      case Star => exists k :: StarTakes(k, name) && Fill(terms[1..], name[k..])
      case Any => name != "" && name[0] != '/' && Fill(terms[1..], name[1..])
      case Exactly(d) => name != "" && name[0] == d && Fill(terms[1..], name[1..])
      case Class(negated, ranges) =>
        && name != ""
        && (if negated then forall i :: 0 <= i < |ranges| ==> !(ranges[i].lo <= name[0] <= ranges[i].hi)
            else exists i :: 0 <= i < |ranges| && ranges[i].lo <= name[0] <= ranges[i].hi)
        && Fill(terms[1..], name[1..])
  }

  predicate StarTakes(k: int, name: string) {
    0 <= k <= |name| && forall i :: 0 <= i < k ==> name[i] != '/'
  }

  lemma OneTermFills(terms: seq<Term>, name: string)
    requires terms != [] && !terms[0].Star?
    ensures Fill(terms, name) <==> name != "" && Fits(terms[0], name[0]) && Fill(terms[1..], name[1..])
  {
  }

  lemma {:induction false} ChunkFills(chunk: seq<Term>, rest: seq<Term>, name: string)
    requires forall i :: 0 <= i < |chunk| ==> !chunk[i].Star?
    ensures Fill(chunk + rest, name) <==> MatchChunk(chunk, name).Some? && Fill(rest, MatchChunk(chunk, name).value)
  {
    if chunk == [] {
      assert chunk + rest == rest;
    } else {
      assert (chunk + rest)[1..] == chunk[1..] + rest;
      OneTermFills(chunk + rest, name);
      if name != "" { ChunkFills(chunk[1..], rest, name[1..]); }
    }
  }

  lemma {:induction false} MatchedLength(chunk: seq<Term>, name: string)
    requires MatchChunk(chunk, name).Some?
    ensures |chunk| <= |name| && MatchChunk(chunk, name).value == name[|chunk|..]
    ensures forall i :: 0 <= i < |chunk| ==> Fits(chunk[i], name[i])
  {
    if chunk != [] {
      MatchedLength(chunk[1..], name[1..]);
      forall i | 0 <= i < |chunk| ensures Fits(chunk[i], name[i]) {
        if i > 0 { assert chunk[i] == chunk[1..][i - 1] && name[i] == name[1..][i - 1]; }
      }
    }
  }

  /** Stars in a row take what one star takes. */
  lemma {:induction false} StarsFill(terms: seq<Term>, name: string)
    requires terms != [] && terms[0].Star?
    ensures Fill(terms, name) <==> exists k :: StarTakes(k, name) && Fill(DropStars(terms), name[k..])
  {
    var rest := terms[1..];
    if rest != [] && rest[0].Star? {
      assert DropStars(terms) == DropStars(rest);
      if Fill(terms, name) {
        var k :| StarTakes(k, name) && Fill(rest, name[k..]);
        StarsFill(rest, name[k..]);
        var j :| StarTakes(j, name[k..]) && Fill(DropStars(rest), name[k..][j..]);
        StarsTogether(name, k, j);
        assert name[k..][j..] == name[k + j..];
        assert StarTakes(k + j, name) && Fill(DropStars(terms), name[k + j..]);
      }
      if k :| StarTakes(k, name) && Fill(DropStars(terms), name[k..]) {
        StarsFill(rest, name);
        assert StarTakes(0, name) && name[0..] == name;
      }
    } else {
      assert DropStars(terms) == rest;
    }
  }

  lemma StarsTogether(name: string, k: nat, j: nat)
    requires StarTakes(k, name) && StarTakes(j, name[k..])
    ensures StarTakes(k + j, name)
  {
    forall i | 0 <= i < k + j ensures name[i] != '/' {
      if i >= k { assert name[i] == name[k..][i - k]; }
    }
  }

  /** The star may begin at the first `j` characters, and then the chunk matches, up to the end if it is the last. */
  predicate FoundAt(chunk: seq<Term>, name: string, last: bool, j: int) {
    && StarTakes(j, name)
    && MatchChunk(chunk, name[j..]).Some?
    && (last ==> MatchChunk(chunk, name[j..]) == Some(""))
  }

  /** `Skip` finds the first such place after the beginning, if there is one. */
  lemma {:induction false} SkipFinds(chunk: seq<Term>, name: string, last: bool) returns (k: nat)
    ensures Skip(chunk, name, last).Some? ==> 0 < k && FoundAt(chunk, name, last, k) && MatchChunk(chunk, name[k..]) == Skip(chunk, name, last)
    ensures forall j :: 0 < j && FoundAt(chunk, name, last, j) ==> Skip(chunk, name, last).Some? && k <= j
  {
    k := 0;
    if name != "" && name[0] != '/' {
      var tail := name[1..];
      var q := SkipFinds(chunk, tail, last);
      if FoundAt(chunk, name, last, 1) {
        k := 1;
      } else {
        k := q + 1;
        if Skip(chunk, tail, last).Some? {
          assert tail[q..] == name[q + 1..];
          StarsTogether(name, 1, q);
        }
        forall j | 0 < j && FoundAt(chunk, name, last, j) ensures Skip(chunk, name, last).Some? && k <= j {
          assert tail[j - 1..] == name[j..];
          assert FoundAt(chunk, tail, last, j - 1);
        }
      }
    }
  }

  /** How the matcher cuts terms up: a star or none, a chunk, and the rest. */
  lemma Cut(terms: seq<Term>)
    requires terms != []
    ensures var after := DropStars(terms);
      var n := ChunkLength(after);
      && after == after[..n] + after[n..]
      && (forall i :: 0 <= i < n ==> !after[..n][i].Star?)
      && (after[n..] == [] || after[n..][0].Star?)
      && (n == 0 ==> terms[0].Star? && after == [])
      && (n > 0 ==> |after[n..]| < |terms|)
  {
  }

  /** Whatever matches is filled: no star skips a slash, no character is overlooked. */
  lemma {:induction false} MatchFills(terms: seq<Term>, name: string)
    requires MatchTerms(terms, name)
    ensures Fill(terms, name)
    decreases |terms|
  {
    if terms != [] {
      Cut(terms);
      var after := DropStars(terms);
      var n := ChunkLength(after);
      var chunk, rest := after[..n], after[n..];
      if terms[0].Star? { StarsFill(terms, name); }
      if n == 0 {
        assert StarTakes(|name|, name) && Fill([], name[|name|..]);
      } else {
        var left := MatchChunk(chunk, name);
        if left.Some? && (left.value == "" || rest != []) {
          MatchFills(rest, left.value);
          ChunkFills(chunk, rest, name);
          assert StarTakes(0, name) && name[0..] == name;
        } else {
          var k := SkipFinds(chunk, name, rest == []);
          MatchFills(rest, MatchChunk(chunk, name[k..]).value);
          ChunkFills(chunk, rest, name[k..]);
        }
      }
    }
  }

  /** No character class of the pattern takes in the slash. */
  ghost predicate NoClassTakesSlash(terms: seq<Term>) {
    forall i :: 0 <= i < |terms| && terms[i].Class? ==> !Fits(terms[i], '/')
  }

  /** What comes after a star can as well be matched at its first place: the stars that follow make up for it. */
  lemma MoveEarlier(chunk: seq<Term>, rest: seq<Term>, name: string, a: nat, b: nat)
    requires a < b && StarTakes(b, name)
    requires (forall i :: 0 <= i < |chunk| ==> !chunk[i].Star?) && NoClassTakesSlash(chunk)
    requires MatchChunk(chunk, name[a..]).Some? && MatchChunk(chunk, name[b..]).Some?
    requires rest != [] && rest[0].Star? && Fill(rest, MatchChunk(chunk, name[b..]).value)
    ensures Fill(rest, MatchChunk(chunk, name[a..]).value)
  {
    var n := |chunk|;
    MatchedLength(chunk, name[a..]);
    MatchedLength(chunk, name[b..]);
    NoSlashMatched(chunk, name, a, b, n);
    var early := name[a..][n..];
    assert name[b..][n..] == early[b - a..];
    forall i | 0 <= i < b - a ensures early[i] != '/' { assert early[i] == name[a + n + i]; }
    StarTakesMore(rest, early, b - a);
  }

  lemma StarTakesMore(rest: seq<Term>, name: string, d: nat)
    requires rest != [] && rest[0].Star? && StarTakes(d, name) && Fill(rest, name[d..])
    ensures Fill(rest, name)
  {
    var q :| StarTakes(q, name[d..]) && Fill(rest[1..], name[d..][q..]);
    StarsTogether(name, d, q);
    assert name[d + q..] == name[d..][q..];
  }

  /** If the chunk had a slash, both matches would have their first slash at the same character. */
  lemma {:induction false} NoSlashMatched(chunk: seq<Term>, name: string, a: nat, b: nat, n: nat)
    requires a < b && StarTakes(b, name) && n <= |chunk| && b + |chunk| <= |name|
    requires (forall i :: 0 <= i < |chunk| ==> !chunk[i].Star?) && NoClassTakesSlash(chunk)
    requires forall i :: 0 <= i < |chunk| ==> Fits(chunk[i], name[a..][i]) && Fits(chunk[i], name[b..][i])
    ensures forall i :: 0 <= i < b + n ==> name[i] != '/'
    decreases n
  {
    if n > 0 {
      NoSlashMatched(chunk, name, a, b, n - 1);
      var i := n - 1;
      assert Fits(chunk[i], name[a..][i]) && Fits(chunk[i], name[b..][i]);
      assert name[a..][i] == name[a + i] && name[b..][i] == name[b + i];
      assert name[a + i] != '/';
    }
  }

  /** Unless a class takes in the slash, whatever can be filled matches: trying the first place only loses nothing. */
  lemma {:induction false} FillMatches(terms: seq<Term>, name: string)
    requires Fill(terms, name) && NoClassTakesSlash(terms)
    ensures MatchTerms(terms, name)
    decreases |terms|
  {
    if terms != [] {
      Cut(terms);
      var after := DropStars(terms);
      PartsTakeNoSlash(terms);
      var n := ChunkLength(after);
      var chunk, rest := after[..n], after[n..];
      if terms[0].Star? {
        StarsFill(terms, name);
        var k :| StarTakes(k, name) && Fill(after, name[k..]);
        if n > 0 {
          ChunkFills(chunk, rest, name[k..]);
          ChunkAfterStarMatches(terms, chunk, rest, name, k);
        }
      } else {
        ChunkFills(chunk, rest, name);
        FillMatches(rest, MatchChunk(chunk, name).value);
      }
    }
  }

  lemma {:induction false} ChunkAfterStarMatches(terms: seq<Term>, chunk: seq<Term>, rest: seq<Term>, name: string, k: nat)
    requires terms != [] && terms[0].Star? && chunk != [] && |rest| < |terms|
    requires chunk == DropStars(terms)[..ChunkLength(DropStars(terms))] && rest == DropStars(terms)[ChunkLength(DropStars(terms))..]
    requires (forall i :: 0 <= i < |chunk| ==> !chunk[i].Star?) && (rest == [] || rest[0].Star?)
    requires NoClassTakesSlash(chunk) && NoClassTakesSlash(rest)
    requires StarTakes(k, name) && MatchChunk(chunk, name[k..]).Some? && Fill(rest, MatchChunk(chunk, name[k..]).value)
    ensures MatchTerms(terms, name)
    decreases |terms|, 0
  {
    var left := MatchChunk(chunk, name);
    assert name[0..] == name;
    if left.Some? && (left.value == "" || rest != []) {
      if rest != [] && k > 0 { MoveEarlier(chunk, rest, name, 0, k); }
      if rest != [] { FillMatches(rest, left.value); }
    } else {
      var j := SkipFinds(chunk, name, rest == []);
      assert FoundAt(chunk, name, rest == [], k);
      if rest != [] {
        if j < k { MoveEarlier(chunk, rest, name, j, k); }
        FillMatches(rest, MatchChunk(chunk, name[j..]).value);
      }
    }
  }

  lemma {:induction false} PartsTakeNoSlash(terms: seq<Term>)
    requires NoClassTakesSlash(terms)
    ensures var after := DropStars(terms);
      var n := ChunkLength(after);
      NoClassTakesSlash(after) && NoClassTakesSlash(after[..n]) && NoClassTakesSlash(after[n..])
  {
    if terms != [] && terms[0].Star? { PartsTakeNoSlash(terms[1..]); }
  }

  /** A pattern matches only names it can fill, and all of them unless a class takes in the slash. */
  lemma MatchIffFill(pattern: string, name: string)
    ensures Match(pattern, name) ==> Parse(pattern).Some? && Fill(Parse(pattern).value, name)
    ensures Parse(pattern).Some? && NoClassTakesSlash(Parse(pattern).value) ==>
      (Match(pattern, name) <==> Fill(Parse(pattern).value, name))
  {
    if Match(pattern, name) { MatchFills(Parse(pattern).value, name); }
    if Parse(pattern).Some? && NoClassTakesSlash(Parse(pattern).value) && Fill(Parse(pattern).value, name) {
      FillMatches(Parse(pattern).value, name);
    }
  }

  /** A class that takes in the slash, between two stars, does lose a name: `x/z` can be filled, by x, the slash and z,
      but the class is matched at its first place, and the second star then stands before the slash. */
  lemma SlashClassLosesAName()
    ensures var terms := [Star, Class(true, [Range('a', 'a')]), Star, Exactly('z')];
      Parse("*[^a]*z") == Some(terms) && Fill(terms, "x/z") && !Match("*[^a]*z", "x/z")
  {
    var cls := Class(true, [Range('a', 'a')]);
    var terms := [Star, cls, Star, Exactly('z')];
    ShowReadsBack(terms);
    ShowTheTerms(terms, cls);
    FillTheName(terms, cls);
    NoMatchForTheName(terms, cls);
  }

  lemma ShowTheTerms(terms: seq<Term>, cls: Term)
    requires cls == Class(true, [Range('a', 'a')]) && terms == [Star, cls, Star, Exactly('z')]
    ensures Show(terms) == "*[^a]*z"
  {
    var ranges := [Range('a', 'a')];
    assert ranges[1..] == [] && ShowRanges(ranges) == "a" + "";
    assert ShowTerm(cls) == "[^" + "a" + "]" == "[^a]";
    var two := [Star, Exactly('z')];
    assert two[1..] == [Exactly('z')] && [Exactly('z')][1..] == [];
    assert Show([Exactly('z')]) == "z" + "";
    assert Show(two) == "*" + "z";
    assert terms[1..] == [cls] + two && terms[1..][1..] == two;
    assert Show(terms[1..]) == "[^a]" + "*z";
    assert Show(terms) == "*" + "[^a]*z";
  }

  lemma FillTheName(terms: seq<Term>, cls: Term)
    requires cls == Class(true, [Range('a', 'a')]) && terms == [Star, cls, Star, Exactly('z')]
    ensures Fill(terms, "x/z")
  {
    FillTheEnd();
    assert terms[1..][1..] == [Star, Exactly('z')] && "/z"[1..] == "z";
    OneTermFills(terms[1..], "/z");
    assert StarTakes(1, "x/z") && "x/z"[1..] == "/z";
  }

  lemma FillTheEnd()
    ensures Fill([Star, Exactly('z')], "z")
  {
    var z := [Exactly('z')];
    assert z[1..] == [] && "z"[1..] == "";
    assert Fill(z, "z");
    assert [Star, Exactly('z')][1..] == z && StarTakes(0, "z") && "z"[0..] == "z";
  }

  lemma NoMatchForTheName(terms: seq<Term>, cls: Term)
    requires cls == Class(true, [Range('a', 'a')]) && terms == [Star, cls, Star, Exactly('z')]
    ensures !MatchTerms(terms, "x/z")
  {
    var rest := [Star, Exactly('z')];
    assert DropStars(terms) == DropStars(terms[1..]) == terms[1..];
    assert terms[1..] == [cls] + rest;
    assert ChunkLength(terms[1..]) == 1 + ChunkLength(terms[1..][1..]) && terms[1..][1..] == rest;
    assert terms[1..][..1] == [cls];
    assert [cls][1..] == [] && "x/z"[1..] == "/z";
    assert MatchChunk([cls], "x/z") == Some("/z");
    assert MatchTerms(terms, "x/z") == MatchTerms(rest, "/z");
    NothingBeforeTheSlash(rest, "/z");
    if MatchTerms(rest, "/z") { MatchFills(rest, "/z"); }
  }

  lemma NothingBeforeTheSlash(rest: seq<Term>, name: string)
    requires rest == [Star, Exactly('z')] && name != "" && name[0] == '/'
    ensures !Fill(rest, name)
  {
    forall k | StarTakes(k, name) ensures !Fill(rest[1..], name[k..]) {
      assert k == 0 && name[0..] == name;
    }
  }

  // ---------------------------------------------------------------- what a pattern says

  /** How a term is written: characters that mean something else at their place are escaped. */
  function ShowTerm(t: Term): string {
    match t
    case Star => "*"
    case Any => "?"
    case Exactly(c) => if c == '*' || c == '?' || c == '[' || c == '\\' then ['\\', c] else [c]
    case Class(negated, ranges) => (if negated then "[^" else "[") + ShowRanges(ranges) + "]"
  }

  function ShowEnd(c: char): string {
    if c == '\\' || c == '-' || c == ']' || c == '^' then ['\\', c] else [c]
  }

  function ShowRange(r: Range): string {
    if r.lo == r.hi then ShowEnd(r.lo) else ShowEnd(r.lo) + "-" + ShowEnd(r.hi)
  }

  function ShowRanges(ranges: seq<Range>): string {
    if ranges == [] then "" else ShowRange(ranges[0]) + ShowRanges(ranges[1..])
  }

  function Show(terms: seq<Term>): string {
    if terms == [] then "" else ShowTerm(terms[0]) + Show(terms[1..])
  }

  lemma EndReadsBack(c: char, rest: string)
    requires rest != ""
    ensures ReadEnd(ShowEnd(c) + rest) == Some((c, rest))
  {
    var p := ShowEnd(c) + rest;
    assert p[|ShowEnd(c)|..] == rest;
    assert |ShowEnd(c)| == 2 ==> p[1..] == [c] + rest && p[1..][1..] == rest;
    assert |ShowEnd(c)| == 1 ==> p[1..] == rest;
  }

  lemma RangeReadsBack(r: Range, rest: string)
    requires rest != "" && rest[0] != '-'
    ensures ReadRange(ShowRange(r) + rest) == Some((r, rest))
  {
    if r.lo == r.hi {
      EndReadsBack(r.lo, rest);
    } else {
      var more := ShowEnd(r.hi) + rest;
      EndReadsBack(r.hi, rest);
      EndReadsBack(r.lo, "-" + more);
      assert ShowRange(r) + rest == ShowEnd(r.lo) + ("-" + more);
      assert ("-" + more)[1..] == more;
    }
  }

  function RangesText(ranges: seq<Range>, rest: string): string {
    ShowRanges(ranges) + ("]" + rest)
  }

  lemma RangesTextCons(ranges: seq<Range>, rest: string)
    requires ranges != []
    ensures RangesText(ranges, rest) == ShowRange(ranges[0]) + RangesText(ranges[1..], rest)
  {
  }

  lemma {:induction false} RangesReadBack(ranges: seq<Range>, soFar: seq<Range>, rest: string)
    requires ranges != [] || soFar != []
    ensures ReadRanges(RangesText(ranges, rest), soFar) == Some((soFar + ranges, rest))
    decreases |ranges|
  {
    if ranges == [] {
      var text := RangesText(ranges, rest);
      assert text == "]" + rest && text[1..] == rest;
      assert soFar + [] == soFar;
    } else {
      var more := RangesText(ranges[1..], rest);
      FirstOfRanges(ranges[1..], rest);
      FirstOfRange(ranges[0]);
      RangesReadBack(ranges[1..], soFar + [ranges[0]], rest);
      RangeReadsBack(ranges[0], more);
      RangesStep(ShowRange(ranges[0]), more, soFar, ranges[0]);
      RangesTextCons(ranges, rest);
      RangesTogether(ranges, soFar);
    }
  }

  lemma RangesTogether(ranges: seq<Range>, soFar: seq<Range>)
    requires ranges != []
    ensures soFar + [ranges[0]] + ranges[1..] == soFar + ranges
  {
  }

  lemma RangesStep(shown: string, more: string, soFar: seq<Range>, range: Range)
    requires shown != "" && shown[0] != ']' && more != "" && ReadRange(shown + more) == Some((range, more))
    ensures ReadRanges(shown + more, soFar) == ReadRanges(more, soFar + [range])
  {
  }

  lemma FirstOfRanges(ranges: seq<Range>, rest: string)
    ensures var text := RangesText(ranges, rest); text != "" && text[0] != '-' && text[0] != '^'
  {
    if ranges != [] {
      FirstOfRange(ranges[0]);
      RangesTextCons(ranges, rest);
    }
  }

  lemma FirstOfRange(r: Range)
    ensures ShowRange(r) != "" && ShowRange(r)[0] != '-' && ShowRange(r)[0] != ']' && ShowRange(r)[0] != '^'
  {
  }

  lemma ClassReadsBack(negated: bool, ranges: seq<Range>, rest: string)
    requires ranges != []
    ensures Parse(ShowTerm(Class(negated, ranges)) + rest) == Then(Class(negated, ranges), Parse(rest))
  {
    var body := RangesText(ranges, rest);
    RangesReadBack(ranges, [], rest);
    FirstOfRanges(ranges, rest);
    assert [] + ranges == ranges;
    if negated {
      ParseNegatedClass(body, ranges, rest);
      Regroup("[^", ShowRanges(ranges), rest);
    } else {
      ParseClass(body, ranges, rest);
      Regroup("[", ShowRanges(ranges), rest);
    }
  }

  lemma Regroup(open: string, inside: string, rest: string)
    ensures (open + inside + "]") + rest == open + (inside + ("]" + rest))
  {
  }

  lemma ParseClass(body: string, ranges: seq<Range>, rest: string)
    requires body != "" && body[0] != '^' && ReadRanges(body, []) == Some((ranges, rest))
    ensures Parse("[" + body) == Then(Class(false, ranges), Parse(rest))
  {
    assert ("[" + body)[1..] == body;
  }

  lemma ParseNegatedClass(body: string, ranges: seq<Range>, rest: string)
    requires ReadRanges(body, []) == Some((ranges, rest))
    ensures Parse("[^" + body) == Then(Class(true, ranges), Parse(rest))
  {
    assert ("[^" + body)[2..] == body;
  }

  lemma TermReadsBack(t: Term, rest: string)
    requires t.Class? ==> t.ranges != []
    ensures Parse(ShowTerm(t) + rest) == Then(t, Parse(rest))
  {
    match t
    case Class(negated, ranges) => ClassReadsBack(negated, ranges, rest);
    case _ =>
      var p := ShowTerm(t) + rest;
      assert p[|ShowTerm(t)|..] == rest;
  }

  /** Every list of terms is what the reader makes of its text: stars, question marks, classes with their ranges and
      negation, and characters, escaped where they have to be. */
  lemma {:induction false} ShowReadsBack(terms: seq<Term>)
    requires forall t :: t in terms && t.Class? ==> t.ranges != []
    ensures Parse(Show(terms)) == Some(terms)
  {
    if terms != [] {
      ShowReadsBack(terms[1..]);
      TermReadsBack(terms[0], Show(terms[1..]));
      assert terms == [terms[0]] + terms[1..];
    }
  }

  /** Texts that are no patterns, and so match nothing: an unfinished class or escape, a class without members, and a
      hyphen or a closing bracket where the end of a range has to be. */
  lemma MalformedPatterns()
    ensures Parse("[").None? && Parse("\\").None? && Parse("[]").None? && Parse("[^]").None? && Parse("[-]").None?
  {
    assert "["[1..] == "" && "[]"[1..] == "]" && "[^]"[2..] == "]" && "[-]"[1..] == "-]";
  }

  lemma MalformedRanges(c: char)
    requires c != '\\' && c != '^' && c != '-' && c != ']'
    ensures Parse(['[', c]).None? && Parse(['[', c, '-', ']']).None? && Parse(['[', c, '-']).None?
  {
    assert ['[', c][1..] == [c] && ['[', c, '-', ']'][1..] == [c, '-', ']'] && ['[', c, '-'][1..] == [c, '-'];
    assert [c, '-', ']'][1..] == ['-', ']'] && ['-', ']'][1..] == [']'];
    assert [c, '-'][1..] == ['-'] && ['-'][1..] == [];
  }

  // ---------------------------------------------------------------- regexp.QuoteMeta

  const META := "\\.+*?()|[]{}^$"

  function QuoteChar(c: char): string {
    if c in META then ['\\', c] else [c]
  }

  function QuoteMeta(s: string): string {
    if s == "" then "" else QuoteChar(s[0]) + QuoteMeta(s[1..])
  }

  lemma SlashIsPlain()
    ensures QuoteChar('/') == "/"
  {
    assert META == ['\\', '.', '+', '*', '?', '(', ')', '|', '[', ']', '{', '}', '^', '$'];
  }

  lemma {:induction false} QuoteConcat(a: string, b: string)
    ensures QuoteMeta(a + b) == QuoteMeta(a) + QuoteMeta(b)
  {
    if a == "" {
      assert a + b == b;
    } else {
      assert (a + b)[1..] == a[1..] + b;
      QuoteConcat(a[1..], b);
    }
  }

  /** Quoting neither adds nor removes a slash at either end. */
  lemma QuoteEnds(s: string)
    requires s != ""
    ensures var q := QuoteMeta(s); q != "" && (q[0] == '/' <==> s[0] == '/') && q[|q| - 1] == s[|s| - 1]
  {
    SlashIsPlain();
    var init, last := s[..|s| - 1], [s[|s| - 1]];
    assert s == init + last;
    QuoteConcat(init, last);
    assert last[1..] == "" && QuoteMeta(last) == QuoteChar(last[0]) + "";
  }

  function Exact(s: string): (terms: seq<Term>)
    ensures |terms| == |s| && forall i :: 0 <= i < |s| ==> terms[i] == Exactly(s[i])
  {
    seq(|s|, i requires 0 <= i < |s| => Exactly(s[i]))
  }

  /** `path.Match` takes every character of a quoted string literally, because its metacharacters are among
      the ones `regexp.QuoteMeta` escapes and a backslash means the same to both. */
  lemma {:induction false} ParseQuoted(s: string, tail: string)
    requires Parse(tail).Some?
    ensures Parse(QuoteMeta(s) + tail) == Some(Exact(s) + Parse(tail).value)
  {
    if s == "" {
      assert QuoteMeta(s) + tail == tail;
      assert Exact(s) + Parse(tail).value == Parse(tail).value;
    } else {
      var rest := QuoteMeta(s[1..]) + tail;
      ParseQuoted(s[1..], tail);
      ParseQuotedChar(s[0], rest);
      assert QuoteMeta(s) + tail == QuoteChar(s[0]) + rest;
      ExactCons(s, Parse(tail).value);
    }
  }

  lemma ExactCons(s: string, terms: seq<Term>)
    requires s != ""
    ensures Exact(s) + terms == [Exactly(s[0])] + (Exact(s[1..]) + terms)
  {
  }

  lemma ParseQuotedChar(c: char, rest: string)
    ensures Parse(QuoteChar(c) + rest) == Then(Exactly(c), Parse(rest))
  {
    var p := QuoteChar(c) + rest;
    assert META[0] == '\\' && META[3] == '*' && META[4] == '?' && META[8] == '[';
    assert c == '\\' || c == '*' || c == '?' || c == '[' ==> c in META;
    if c in META {
      assert p[2..] == rest;
    } else {
      assert p[1..] == rest;
    }
  }

  lemma {:induction false} MatchExactChunk(s: string, name: string)
    ensures MatchChunk(Exact(s), name) == if s <= name then Some(name[|s|..]) else None
  {
    if s != "" && name != "" {
      assert Exact(s)[1..] == Exact(s[1..]);
      MatchExactChunk(s[1..], name[1..]);
      if s[0] == name[0] {
        assert s == [s[0]] + s[1..] && name == [name[0]] + name[1..];
        assert s <= name <==> s[1..] <= name[1..];
      }
    }
  }

  lemma {:induction false} ChunkOfExact(s: string, rest: seq<Term>)
    requires rest == [] || rest[0].Star?
    ensures ChunkLength(Exact(s) + rest) == |s|
  {
    var terms := Exact(s) + rest;
    if s != "" {
      assert terms[1..] == Exact(s[1..]) + rest;
      ChunkOfExact(s[1..], rest);
    }
  }

  /** Literal terms before a star, or before the end, consume their text and leave the rest to the rest. */
  lemma LeadingLiterals(s: string, rest: seq<Term>, name: string)
    requires s != "" && (rest == [] || rest[0].Star?)
    ensures MatchTerms(Exact(s) + rest, name)
       <==> s <= name && (name == s || rest != []) && MatchTerms(rest, name[|s|..])
  {
    CutOfLiterals(s, rest);
    MatchExactChunk(s, name);
    if s <= name { assert name == s + name[|s|..]; }
  }

  lemma CutOfLiterals(s: string, rest: seq<Term>)
    requires s != "" && (rest == [] || rest[0].Star?)
    ensures var terms := Exact(s) + rest;
      && terms != [] && !terms[0].Star? && DropStars(terms) == terms && ChunkLength(terms) == |s|
      && terms[..|s|] == Exact(s) && terms[|s|..] == rest
  {
    ChunkOfExact(s, rest);
  }

  /** A quoted string, used as a glob, matches itself and nothing else. */
  lemma QuotedMatchesOnlyItself(s: string, name: string)
    ensures Match(QuoteMeta(s), name) <==> name == s
  {
    ParseQuoted(s, "");
    assert QuoteMeta(s) + "" == QuoteMeta(s);
    assert Exact(s) + [] == Exact(s);
    if s != "" { LeadingLiterals(s, [], name); }
  }

  predicate Plain(p: string) {
    '*' !in p && '?' !in p && '[' !in p && '\\' !in p
  }

  lemma {:induction false} ParsePlain(p: string)
    requires Plain(p)
    ensures Parse(p) == Some(Exact(p))
  {
    if p != "" {
      ParsePlain(p[1..]);
      assert Exact(p) == [Exactly(p[0])] + Exact(p[1..]);
    }
  }

  /** A pattern without metacharacters matches itself and nothing else. */
  lemma PlainMatchesOnlyItself(p: string, name: string)
    requires Plain(p)
    ensures Match(p, name) <==> name == p
  {
    ParsePlain(p);
    assert Exact(p) + [] == Exact(p);
    if p != "" { LeadingLiterals(p, [], name); }
  }

  /** A pattern that begins with an ordinary character only matches names that begin with it. */
  lemma FirstLiteralCounts(p: string, name: string)
    requires p != "" && Plain([p[0]]) && Match(p, name)
    ensures name != "" && name[0] == p[0]
  {
    assert p[0] in [p[0]];
    var terms := Parse(p).value;
    assert terms[0] == Exactly(p[0]) && DropStars(terms) == terms;
    var n := ChunkLength(terms);
    assert n > 0 && terms[..n][0] == Exactly(p[0]);
  }

  /** A quoted string followed by `/` and a star matches exactly the names one level below it. */
  lemma QuotedDirectoryMatchesItsChildren(s: string, name: string)
    ensures Match(QuoteMeta(s) + "/*", name) <==> s + "/" <= name && '/' !in name[|s| + 1..]
  {
    ParseQuotedDirectory(s);
    DirectoryTerms(s + "/", name);
  }

  lemma ParseQuotedDirectory(s: string)
    ensures Parse(QuoteMeta(s) + "/*") == Some(Exact(s + "/") + [Star])
  {
    ParseDirectoryTail();
    ParseQuoted(s, "/*");
    assert Exact(s) + [Exactly('/'), Star] == Exact(s + "/") + [Star];
  }

  lemma DirectoryTerms(d: string, name: string)
    requires d != ""
    ensures MatchTerms(Exact(d) + [Star], name) <==> d <= name && '/' !in name[|d|..]
  {
    LeadingLiterals(d, [Star], name);
    if d <= name { TrailingStar(name[|d|..]); }
  }

  lemma ParseDirectoryTail()
    ensures Parse("/*") == Some([Exactly('/'), Star])
  {
    ParseQuotedChar('/', "*");
    SlashIsPlain();
    assert QuoteChar('/') + "*" == "/*";
    assert "*"[1..] == "" && Parse("*") == Then(Star, Parse("")) == Some([Star] + []);
    assert [Star] + [] == [Star];
    assert [Exactly('/')] + [Star] == [Exactly('/'), Star];
  }

  lemma TrailingStar(name: string)
    ensures MatchTerms([Star], name) <==> '/' !in name
  {
    assert [Star][1..] == [];
    assert DropStars([Star]) == DropStars([]) == [];
  }
}
