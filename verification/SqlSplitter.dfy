/**
 Splitting a SQL script into statements. There are four kinds of opaque region, each with a closing
 delimiter; a statement is the text between consecutive semicolons outside all of them. Two lexers are
 defined: one in which the two characters that open a block comment are its opening, and the one that the
 program has, in which the second of them may already be part of the end. Where they agree is proved.
 */
module SqlSplitter {
  import opened Wrappers

  // ----- characters -----

  /** The characters that `trim` removes: white space and line terminators of ECMAScript. */
  predicate IsSpace(c: char) {
    || c in ['\t', '\n', '\U{0B}', '\U{0C}', '\r', ' ', '\U{A0}', '\U{1680}', '\U{2028}', '\U{2029}']
    || c in ['\U{202F}', '\U{205F}', '\U{3000}', '\U{FEFF}']
    || '\U{2000}' <= c <= '\U{200A}'
  }

  predicate IsNameStart(c: char) { 'A' <= c <= 'Z' || 'a' <= c <= 'z' || c == '_' }

  predicate IsNamePart(c: char) { IsNameStart(c) || '0' <= c <= '9' }

  function TrimStart(s: string): string {
    if s != [] && IsSpace(s[0]) then TrimStart(s[1..]) else s
  }

  function TrimEnd(s: string): string {
    if s != [] && IsSpace(s[|s| - 1]) then TrimEnd(s[..|s| - 1]) else s
  }

  function Trim(s: string): string { TrimEnd(TrimStart(s)) }

  // ----- the specification -----

  /** How far a name starting at the front of `s` reaches. */
  function NameLength(s: string): (n: nat)
    ensures n <= |s|
    ensures forall k :: 0 <= k < n ==> IsNamePart(s[k])
    ensures n < |s| ==> !IsNamePart(s[n])
  {
    if s != [] && IsNamePart(s[0]) then 1 + NameLength(s[1..]) else 0
  }

  /** The dollar-quote delimiter `$$` or `$name$` at the front of `s`, empty when there is none. */
  function DollarTag(s: string): (tag: string)
    ensures tag <= s
    ensures tag != [] ==> |tag| >= 2 && tag[0] == '$' && tag[|tag| - 1] == '$'
  {
    if |s| < 2 || s[0] != '$' then []
    else if s[1] == '$' then s[..2]
    else if IsNameStart(s[1]) then
      var n := NameLength(s[1..]);
      if 1 + n < |s| && s[1 + n] == '$' then s[..n + 2] else []
    else []
  }

  /** An opaque region: how much of the text opens it, and the text that closes it. */
  datatype Region = Region(open: nat, close: string)

  /** The region that opens at the front of `s`: a quote, a line comment, a block comment or a dollar body. */
  function RegionAt(s: string): (r: Option<Region>)
    ensures r.Some? ==> 0 < r.value.open <= |s| && r.value.close != []
  {
    if s == [] then None
    else if s[0] == '\'' then Some(Region(1, "'"))
    else if |s| >= 2 && s[0] == '-' && s[1] == '-' then Some(Region(1, "\n"))
    else if |s| >= 2 && s[0] == '/' && s[1] == '*' then Some(Region(1, "*/"))
    else
      var tag := DollarTag(s);
      if tag != [] then Some(Region(|tag|, tag)) else None
  }

  /** Where the first occurrence of `t` in `s` ends; the end of `s` when there is none. */
  function Find(s: string, t: string): (n: nat)
    requires t != []
    ensures n <= |s|
  {
    if |s| < |t| then |s| else if t <= s then |t| else 1 + Find(s[1..], t)
  }

  /** The length of the token at the front of `s`: a whole region, or one character. */
  function TokenLength(s: string): (n: nat)
    requires s != []
    ensures 0 < n <= |s|
  {
    match RegionAt(s)
    case None => 1
    case Some(r) => r.open + Find(s[r.open..], r.close)
  }

  /** How much text precedes the next semicolon outside every region. */
  function NextSemicolon(s: string): (n: nat)
    ensures n <= |s|
    ensures n < |s| ==> s[n] == ';'
  {
    if s == [] || s[0] == ';' then 0
    else TokenLength(s) + NextSemicolon(s[TokenLength(s)..])
  }

  /** The texts between consecutive top-level semicolons. */
  function Pieces(s: string): (ps: seq<string>)
    ensures ps != []
  {
    var k := NextSemicolon(s);
    if k < |s| then [s[..k]] + Pieces(s[k + 1..]) else [s]
  }

  /** The trimmed texts, without the empty ones. */
  function Cleaned(ps: seq<string>): seq<string> {
    if ps == [] then []
    else if Trim(ps[0]) == [] then Cleaned(ps[1..])
    else [Trim(ps[0])] + Cleaned(ps[1..])
  }

  function Statements(sql: string): seq<string> { Cleaned(Pieces(sql)) }

  // ----- what is still to be read -----

  /** How much text precedes the next top-level semicolon from inside the region that `close` ends, if any. */
  ghost function Reach(rest: string, close: string): (n: nat)
    ensures n <= |rest|
  {
    var inside := if close == [] then 0 else Find(rest, close);
    inside + NextSemicolon(rest[inside..])
  }

  /** The statements still to come when `current` has been read and a region ending in `close` may be open. */
  ghost function Remaining(rest: string, close: string, current: string): seq<string> {
    var k := Reach(rest, close);
    Cleaned([current + rest[..k]] + if k < |rest| then Pieces(rest[k + 1..]) else [])
  }

  ghost function Closing(inQuote: bool, inLine: bool, inBlock: bool, dollarTag: Option<string>): string {
    if inLine then "\n"
    else if inBlock then "*/" else if dollarTag.Some? then dollarTag.value else if inQuote then "'" else []
  }

  ghost predicate AtMostOne(a: bool, b: bool, c: bool, d: bool) {
    (a ==> !b && !c && !d) && (b ==> !c && !d) && (c ==> !d)
  }

  /** Position `p` starts a token, so it lies in no region. */
  ghost predicate TopLevel(s: string, p: nat)
    decreases |s|
  {
    p == 0 || (s != [] && TokenLength(s) <= p && TopLevel(s[TokenLength(s)..], p - TokenLength(s)))
  }

  // ----- block comments that open with two characters -----

  /** One comment, with a semicolon in it. */
  const SEMICOLON_INSIDE := "/*/;*/"

  /** The text starts with a comment that the program takes to end with its third character, and goes on. */
  predicate ShortComment(s: string) { "/*/" <= s && |s| > 3 }

  /** No such comment stands where the program looks for one. */
  ghost predicate Regular(s: string) {
    forall p: nat :: p < |s| && TopLevel(s, p) ==> !ShortComment(s[p..])
  }

  /** As `RegionAt`, but no part of a block comment's opening belongs to its end. */
  function ProperRegionAt(s: string): (r: Option<Region>)
    ensures r.Some? ==> 0 < r.value.open <= |s| && r.value.close != []
  {
    if "/*" <= s then Some(Region(2, "*/")) else RegionAt(s)
  }

  function ProperTokenLength(s: string): (n: nat)
    requires s != []
    ensures 0 < n <= |s|
  {
    match ProperRegionAt(s)
    case None => 1
    case Some(r) => r.open + Find(s[r.open..], r.close)
  }

  function ProperNextSemicolon(s: string): (n: nat)
    ensures n <= |s|
    ensures n < |s| ==> s[n] == ';'
  {
    if s == [] || s[0] == ';' then 0
    else ProperTokenLength(s) + ProperNextSemicolon(s[ProperTokenLength(s)..])
  }

  function ProperPieces(s: string): (ps: seq<string>)
    ensures ps != []
  {
    var k := ProperNextSemicolon(s);
    if k < |s| then [s[..k]] + ProperPieces(s[k + 1..]) else [s]
  }

  function ProperStatements(sql: string): seq<string> { Cleaned(ProperPieces(sql)) }

  // ----- reading one character -----

  lemma RemainingAtStart(s: string)
    ensures Statements(s) == Remaining(s, [], [])
  {
    hide Cleaned, NextSemicolon;
    assert s[0..] == s;
    var k := NextSemicolon(s);
    assert [] + s[..k] == s[..k];
    if k < |s| {
      assert Pieces(s) == [s[..k]] + Pieces(s[k + 1..]);
    } else {
      assert s[..k] == s && Pieces(s) == [s] && [s] + [] == [s];
    }
  }

  /** Reading `n` characters moves them to the current text. */
  lemma Shift(rest: string, close: string, n: nat, close': string, current: string)
    requires n <= |rest| && Reach(rest, close) == n + Reach(rest[n..], close')
    ensures Remaining(rest, close, current) == Remaining(rest[n..], close', current + rest[..n])
  {
    hide Cleaned, Pieces, Reach;
    var k := Reach(rest[n..], close');
    assert current + rest[..n] + rest[n..][..k] == current + rest[..n + k];
    assert rest[n..][k..] == rest[n + k..];
    if n + k < |rest| { assert rest[n..][k + 1..] == rest[n + k + 1..]; }
  }

  lemma ReadClose(rest: string, close: string, current: string)
    requires close != [] && close <= rest
    ensures Remaining(rest, close, current) == Remaining(rest[|close|..], [], current + close)
  {
    hide Remaining, NextSemicolon;
    assert rest[..|close|] == close;
    assert rest[|close|..][0..] == rest[|close|..];
    Shift(rest, close, |close|, [], current);
  }

  lemma ReadInside(rest: string, close: string, current: string)
    requires rest != [] && close != [] && !(close <= rest)
    ensures Remaining(rest, close, current) == Remaining(rest[1..], close, current + [rest[0]])
  {
    hide Remaining, NextSemicolon;
    var n := Find(rest[1..], close);
    assert Find(rest, close) == 1 + n;
    assert rest[1 + n..] == rest[1..][n..];
    assert rest[..1] == [rest[0]];
    Shift(rest, close, 1, close, current);
  }

  lemma ReadOne(rest: string, c: char, current: string)
    requires rest != []
    ensures Remaining(rest, [c], current) == Remaining(rest[1..], if rest[0] == c then [] else [c], current + [rest[0]])
  {
    hide Remaining;
    if rest[0] == c {
      assert [c] <= rest;
      ReadClose(rest, [c], current);
    } else {
      assert !([c] <= rest);
      ReadInside(rest, [c], current);
    }
  }

  lemma ReadInBlock(rest: string, current: string)
    requires rest != []
    ensures if |rest| >= 2 && rest[0] == '*' && rest[1] == '/'
            then Remaining(rest, "*/", current) == Remaining(rest[2..], [], current + ['*'] + ['/'])
            else Remaining(rest, "*/", current) == Remaining(rest[1..], "*/", current + [rest[0]])
  {
    hide Remaining;
    if |rest| >= 2 && rest[0] == '*' && rest[1] == '/' {
      assert "*/" <= rest && current + "*/" == current + ['*'] + ['/'];
      ReadClose(rest, "*/", current);
    } else {
      assert !("*/" <= rest);
      ReadInside(rest, "*/", current);
    }
  }

  lemma RegionIsNoSemicolon(s: string)
    requires RegionAt(s).Some?
    ensures s != [] && s[0] != ';'
  {
  }

  lemma ReachOpen(rest: string)
    requires RegionAt(rest).Some?
    ensures var r := RegionAt(rest).value;
            Reach(rest, []) == r.open + Reach(rest[r.open..], r.close)
  {
    hide RegionAt, Find;
    var r := RegionAt(rest).value;
    var n := Find(rest[r.open..], r.close);
    RegionIsNoSemicolon(rest);
    assert rest[0..] == rest;
    assert rest[r.open..][n..] == rest[r.open + n..];
    assert TokenLength(rest) == r.open + n;
  }

  lemma ReadOpen(rest: string, current: string)
    requires RegionAt(rest).Some?
    ensures var r := RegionAt(rest).value;
            Remaining(rest, [], current) == Remaining(rest[r.open..], r.close, current + rest[..r.open])
  {
    hide Remaining, RegionAt, Reach;
    ReachOpen(rest);
    Shift(rest, [], RegionAt(rest).value.open, RegionAt(rest).value.close, current);
  }

  lemma {:induction false} CleanedAppends(ps: seq<string>, qs: seq<string>)
    ensures Cleaned(ps + qs) == Cleaned(ps) + Cleaned(qs)
  {
    hide Trim;
    if ps == [] {
      assert ps + qs == qs;
    } else {
      assert (ps + qs)[1..] == ps[1..] + qs;
      CleanedAppends(ps[1..], qs);
    }
  }

  lemma ReadSemicolon(rest: string, current: string)
    requires rest != [] && rest[0] == ';'
    ensures Remaining(rest, [], current) == Cleaned([current]) + Remaining(rest[1..], [], [])
  {
    hide Pieces, Cleaned;
    assert rest[0..] == rest && current + rest[..0] == current;
    CleanedAppends([current], Pieces(rest[1..]));
    RemainingAtStart(rest[1..]);
  }

  lemma CleanedOne(p: string)
    ensures Cleaned([p]) == if Trim(p) == [] then [] else [Trim(p)]
  {
    assert [p][1..] == [];
  }

  lemma NoTagElsewhere(s: string)
    requires s != [] && s[0] != '$'
    ensures DollarTag(s) == []
  {
  }

  lemma ReadPlain(rest: string, current: string)
    requires rest != [] && rest[0] != ';' && RegionAt(rest).None?
    ensures Remaining(rest, [], current) == Remaining(rest[1..], [], current + [rest[0]])
  {
    hide Remaining, RegionAt;
    assert rest[0..] == rest && rest[1..][0..] == rest[1..];
    assert rest[..1] == [rest[0]];
    Shift(rest, [], 1, [], current);
  }

  lemma ReadEnd(close: string, current: string)
    ensures Remaining([], close, current) == Cleaned([current])
  {
    hide Cleaned;
    assert current + [] == current;
    assert [current] + [] == [current];
  }

  // ----- where the two lexers agree -----

  lemma TopLevelStep(s: string, p: nat)
    requires s != []
    ensures var n := TokenLength(s);
            TopLevel(s, p) <==> p == 0 || (n <= p && TopLevel(s[n..], p - n))
    ensures s[0] != ';' ==> NextSemicolon(s) == TokenLength(s) + NextSemicolon(s[TokenLength(s)..])
    ensures s[0] == ';' ==> NextSemicolon(s) == 0 && TokenLength(s) == 1
  {
    hide Find;
  }

  lemma RegularRest(s: string)
    requires Regular(s) && s != []
    ensures !ShortComment(s) && Regular(s[TokenLength(s)..])
  {
    hide TokenLength, ShortComment;
    assert TopLevel(s, 0) && s[0..] == s;
    var n := TokenLength(s);
    forall p: nat | p < |s[n..]| && TopLevel(s[n..], p) ensures !ShortComment(s[n..][p..]) {
      TopLevelStep(s, n + p);
      assert s[n..][p..] == s[n + p..];
    }
  }

  lemma {:induction false} FindReaches(s: string, t: string)
    requires t != []
    ensures Find(s, t) == |s| || Find(s, t) >= |t|
    ensures t <= s ==> Find(s, t) == |t|
  {
    if |s| >= |t| && !(t <= s) { FindReaches(s[1..], t); }
  }

  /** The first tokens have the same length exactly when there is no such comment. */
  lemma TokensAgreeIff(s: string)
    requires s != []
    ensures TokenLength(s) == ProperTokenLength(s) <==> !ShortComment(s)
  {
    if "/*" <= s {
      var body := s[2..];
      assert RegionAt(s) == Some(Region(1, "*/")) && ProperRegionAt(s) == Some(Region(2, "*/"));
      assert s[1..] == "*" + body && s[1..][1..] == body;
      FindReaches(body, "*/");
      if body == [] {
        assert s[1..] == "*";
      } else {
        assert "*/" <= s[1..] <==> body[0] == '/';
        assert "/*/" <= s <==> body[0] == '/';
      }
    }
  }

  lemma {:induction false} SemicolonsAgree(s: string)
    requires Regular(s)
    ensures NextSemicolon(s) == ProperNextSemicolon(s)
    decreases |s|
  {
    hide Regular, TokenLength, ProperTokenLength, ShortComment;
    if s != [] && s[0] != ';' {
      RegularRest(s);
      TokensAgreeIff(s);
      SemicolonsAgree(s[TokenLength(s)..]);
    }
  }

  lemma {:induction false} RegularAfterCut(s: string)
    requires Regular(s) && NextSemicolon(s) < |s|
    ensures Regular(s[NextSemicolon(s) + 1..])
    decreases |s|
  {
    hide Regular, NextSemicolon, TokenLength, TopLevel;
    TopLevelStep(s, 0);
    RegularRest(s);
    var n := TokenLength(s);
    if s[0] != ';' {
      RegularAfterCut(s[n..]);
      assert s[n..][NextSemicolon(s[n..]) + 1..] == s[NextSemicolon(s) + 1..];
    }
  }

  lemma FirstPieces(s: string, k: nat)
    requires k == NextSemicolon(s) == ProperNextSemicolon(s)
    ensures k < |s| ==> Pieces(s) == [s[..k]] + Pieces(s[k + 1..])
    ensures k < |s| ==> ProperPieces(s) == [s[..k]] + ProperPieces(s[k + 1..])
    ensures k >= |s| ==> Pieces(s) == ProperPieces(s) == [s]
  {
    hide NextSemicolon, ProperNextSemicolon;
  }

  /** Without such comments the two lexers find the same statements. */
  lemma {:induction false} PiecesAgree(s: string)
    requires Regular(s)
    ensures Pieces(s) == ProperPieces(s)
    decreases |s|
  {
    hide Regular, NextSemicolon, ProperNextSemicolon, Pieces, ProperPieces;
    SemicolonsAgree(s);
    FirstPieces(s, NextSemicolon(s));
    if NextSemicolon(s) < |s| {
      RegularAfterCut(s);
      PiecesAgree(s[NextSemicolon(s) + 1..]);
    }
  }

  lemma StatementsAgree(sql: string)
    requires Regular(sql)
    ensures Statements(sql) == ProperStatements(sql)
  {
    PiecesAgree(sql);
  }

  // ----- the splitter -----

  /** With `i` characters read, the statements so far and what is still to be read make up all the statements. */
  ghost predicate IsDue(sql: string, i: nat, statements: seq<string>, close: string, current: string) {
    i <= |sql| && Statements(sql) == statements + Remaining(sql[i..], close, current)
  }

  lemma DueAtStart(sql: string)
    ensures IsDue(sql, 0, [], [], [])
  {
    hide Statements, Remaining;
    RemainingAtStart(sql);
    assert sql[0..] == sql;
  }

  lemma DueInside(sql: string, i: nat, statements: seq<string>, c: char, current: string)
    requires i < |sql| && IsDue(sql, i, statements, [c], current)
    ensures IsDue(sql, i + 1, statements, if sql[i] == c then [] else [c], current + [sql[i]])
  {
    hide Statements, Remaining;
    ReadOne(sql[i..], c, current);
    assert sql[i..][1..] == sql[i + 1..];
  }

  predicate BlockEndsAt(sql: string, i: nat)
    requires i < |sql|
  {
    sql[i] == '*' && i + 1 < |sql| && sql[i + 1] == '/'
  }

  lemma DueInBlock(sql: string, i: nat, statements: seq<string>, current: string)
    requires i < |sql| && IsDue(sql, i, statements, "*/", current)
    ensures if BlockEndsAt(sql, i) then IsDue(sql, i + 2, statements, [], current + [sql[i]] + [sql[i + 1]])
            else IsDue(sql, i + 1, statements, "*/", current + [sql[i]])
  {
    hide Statements, Remaining;
    var rest := sql[i..];
    ReadInBlock(rest, current);
    assert rest[1..] == sql[i + 1..];
    if i + 1 < |sql| { assert rest[1] == sql[i + 1] && rest[2..] == sql[i + 2..]; }
  }

  lemma DueInTag(sql: string, i: nat, statements: seq<string>, tag: string, current: string)
    requires i < |sql| && tag != [] && IsDue(sql, i, statements, tag, current)
    ensures if tag <= sql[i..] then i + |tag| <= |sql| && IsDue(sql, i + |tag|, statements, [], current + tag)
            else IsDue(sql, i + 1, statements, tag, current + [sql[i]])
  {
    hide Statements, Remaining;
    var rest := sql[i..];
    if tag <= rest {
      ReadClose(rest, tag, current);
      assert rest[|tag|..] == sql[i + |tag|..];
    } else {
      ReadInside(rest, tag, current);
      assert rest[1..] == sql[i + 1..];
    }
  }

  /** What the character at `i` and the one after it open. */
  function OpeningAt(sql: string, i: nat): Option<Region>
    requires i < |sql|
  {
    if sql[i] == '\'' then Some(Region(1, "'"))
    else if sql[i] == '-' && i + 1 < |sql| && sql[i + 1] == '-' then Some(Region(1, "\n"))
    else if sql[i] == '/' && i + 1 < |sql| && sql[i + 1] == '*' then Some(Region(1, "*/"))
    else if sql[i] == '$' && DollarTag(sql[i..]) != []
    then Some(Region(|DollarTag(sql[i..])|, DollarTag(sql[i..])))
    else None
  }

  lemma OpensHere(sql: string, i: nat)
    requires i < |sql|
    ensures RegionAt(sql[i..]) == OpeningAt(sql, i)
  {
    var rest := sql[i..];
    assert rest[0] == sql[i] && (i + 1 < |sql| <==> |rest| >= 2);
    assert |rest| >= 2 ==> rest[1] == sql[i + 1];
    if sql[i] != '$' { NoTagElsewhere(rest); }
    hide DollarTag;
  }

  lemma DueAtOpening(sql: string, i: nat, statements: seq<string>, current: string)
    requires i < |sql| && IsDue(sql, i, statements, [], current) && RegionAt(sql[i..]).Some?
    ensures var r := RegionAt(sql[i..]).value;
            i + r.open <= |sql| && IsDue(sql, i + r.open, statements, r.close, current + sql[i..i + r.open])
  {
    hide Statements, Remaining, RegionAt;
    var rest := sql[i..];
    var r := RegionAt(rest).value;
    ReadOpen(rest, current);
    assert rest[..r.open] == sql[i..i + r.open] && rest[r.open..] == sql[i + r.open..];
  }

  lemma OneLong(sql: string, i: nat)
    requires i < |sql|
    ensures sql[i..i + 1] == [sql[i]]
  {
  }

  lemma TagHere(sql: string, i: nat)
    requires i < |sql|
    ensures var tag := DollarTag(sql[i..]);
            i + |tag| <= |sql| && sql[i..i + |tag|] == tag
  {
    hide DollarTag;
    var tag := DollarTag(sql[i..]);
    assert tag == sql[i..][..|tag|];
  }

  function WithStatement(statements: seq<string>, current: string): seq<string> {
    if Trim(current) == [] then statements else statements + [Trim(current)]
  }

  lemma AddsStatement(statements: seq<string>, current: string)
    ensures statements + Cleaned([current]) == WithStatement(statements, current)
  {
    hide Trim;
    CleanedOne(current);
  }

  lemma DueAtSemicolon(sql: string, i: nat, statements: seq<string>, current: string)
    requires i < |sql| && sql[i] == ';' && IsDue(sql, i, statements, [], current)
    ensures IsDue(sql, i + 1, WithStatement(statements, current), [], [])
  {
    hide Statements, Remaining, Cleaned;
    AddsStatement(statements, current);
    ReadSemicolon(sql[i..], current);
    assert sql[i..][1..] == sql[i + 1..];
  }

  lemma DueElsewhere(sql: string, i: nat, statements: seq<string>, current: string)
    requires i < |sql| && sql[i] != ';' && RegionAt(sql[i..]).None? && IsDue(sql, i, statements, [], current)
    ensures IsDue(sql, i + 1, statements, [], current + [sql[i]])
  {
    hide Statements, Remaining, RegionAt;
    ReadPlain(sql[i..], current);
    assert sql[i..][1..] == sql[i + 1..];
  }

  lemma DueAtEnd(sql: string, statements: seq<string>, close: string, current: string)
    requires IsDue(sql, |sql|, statements, close, current)
    ensures Statements(sql) == WithStatement(statements, current)
  {
    hide Statements, Remaining, Cleaned;
    AddsStatement(statements, current);
    assert sql[|sql|..] == [];
    ReadEnd(close, current);
  }

  method SplitStatements(sql: string) returns (statements: seq<string>)
    ensures statements == Statements(sql)
    ensures Regular(sql) ==> statements == ProperStatements(sql)
  {
    hide Regular, ProperStatements, Statements, Trim, Cleaned, DollarTag, RegionAt, IsDue;
    statements := [];
    var current := "";
    var inSingleQuote, inLineComment, inBlockComment := false, false, false;
    var dollarTag: Option<string> := None;
    var i := 0;
    DueAtStart(sql);
    while i < |sql|
      invariant 0 <= i <= |sql|
      invariant dollarTag.Some? ==> dollarTag.value != []
      invariant AtMostOne(inSingleQuote, inLineComment, inBlockComment, dollarTag.Some?)
      invariant IsDue(sql, i, statements, Closing(inSingleQuote, inLineComment, inBlockComment, dollarTag), current)
    {
      var ch := sql[i];
      if inLineComment {
        DueInside(sql, i, statements, '\n', current);
        current := current + [ch];
        if ch == '\n' { inLineComment := false; }
        i := i + 1;
        continue;
      }
      if inBlockComment {
        DueInBlock(sql, i, statements, current);
        current := current + [ch];
        if ch == '*' && i + 1 < |sql| && sql[i + 1] == '/' {
          current := current + [sql[i + 1]];
          i := i + 2;
          inBlockComment := false;
          continue;
        }
        i := i + 1;
        continue;
      }
      if dollarTag.Some? {
        DueInTag(sql, i, statements, dollarTag.value, current);
        if dollarTag.value <= sql[i..] {
          current := current + dollarTag.value;
          i := i + |dollarTag.value|;
          dollarTag := None;
          continue;
        }
        current := current + [ch];
        i := i + 1;
        continue;
      }
      if inSingleQuote {
        DueInside(sql, i, statements, '\'', current);
        current := current + [ch];
        if ch == '\'' { inSingleQuote := false; }
        i := i + 1;
        continue;
      }
      OpensHere(sql, i);
      OneLong(sql, i);
      if ch == '\'' {
        DueAtOpening(sql, i, statements, current);
        inSingleQuote := true;
        current := current + [ch];
        i := i + 1;
        continue;
      }
      if ch == '-' && i + 1 < |sql| && sql[i + 1] == '-' {
        DueAtOpening(sql, i, statements, current);
        inLineComment := true;
        current := current + [ch];
        i := i + 1;
        continue;
      }
      if ch == '/' && i + 1 < |sql| && sql[i + 1] == '*' {
        DueAtOpening(sql, i, statements, current);
        inBlockComment := true;
        current := current + [ch];
        i := i + 1;
        continue;
      }
      if ch == '$' {
        var tag := DollarTag(sql[i..]);
        if tag != [] {
          DueAtOpening(sql, i, statements, current);
          TagHere(sql, i);
          dollarTag := Some(tag);
          current := current + tag;
          i := i + |tag|;
          continue;
        }
      }
      if ch == ';' {
        DueAtSemicolon(sql, i, statements, current);
        var trimmed := Trim(current);
        if |trimmed| > 0 { statements := statements + [trimmed]; }
        current := "";
        i := i + 1;
        continue;
      }
      DueElsewhere(sql, i, statements, current);
      current := current + [ch];
      i := i + 1;
    }
    DueAtEnd(sql, statements, Closing(inSingleQuote, inLineComment, inBlockComment, dollarTag), current);
    var rest := Trim(current);
    if |rest| > 0 { statements := statements + [rest]; }
    if Regular(sql) { StatementsAgree(sql); }
  }

  // ----- nothing is lost, and exactly the top-level semicolons separate -----

  function Join(ps: seq<string>, separator: string): string {
    if ps == [] then [] else if |ps| == 1 then ps[0] else ps[0] + separator + Join(ps[1..], separator)
  }

  /** The pieces and the semicolons between them are the whole script. */
  lemma {:induction false} NothingLost(s: string)
    ensures Join(Pieces(s), ";") == s
    decreases |s|
  {
    hide NextSemicolon;
    var k := NextSemicolon(s);
    if k < |s| {
      NothingLost(s[k + 1..]);
      assert Pieces(s)[1..] == Pieces(s[k + 1..]);
      assert s == s[..k] + ";" + s[k + 1..];
    }
  }

  /** The position of the separator after piece `j`. */
  ghost function Cut(ps: seq<string>, j: nat): nat
    requires j < |ps|
  {
    if j == 0 then |ps[0]| else |ps[0]| + 1 + Cut(ps[1..], j - 1)
  }

  /** Some separator stands at position `p` of the text that the pieces make up. */
  ghost predicate IsCut(ps: seq<string>, p: int) { exists j :: 0 <= j < |ps| - 1 && Cut(ps, j) == p }

  /** Position `p` is the first top-level semicolon, at `k`, or a top-level semicolon of what follows it. */
  ghost predicate SeparatesAfter(s: string, k: nat, p: nat)
    requires p < |s|
  {
    p == k || (p > k && s[p] == ';' && TopLevel(s[k + 1..], p - k - 1))
  }

  lemma SeparatesShifted(s: string, n: nat, k: nat, p: nat)
    requires n <= p < |s|
    ensures SeparatesAfter(s, n + k, p) <==> SeparatesAfter(s[n..], k, p - n)
  {
    hide TopLevel;
    if p > n + k { assert s[n + k + 1..] == s[n..][k + 1..]; }
  }

  lemma {:induction false} FirstSemicolon(s: string, p: nat)
    requires p < |s|
    ensures s[p] == ';' && TopLevel(s, p) <==> SeparatesAfter(s, NextSemicolon(s), p)
    decreases |s|
  {
    hide TopLevel, NextSemicolon, TokenLength;
    TopLevelStep(s, p);
    var n := TokenLength(s);
    if s[0] != ';' && p >= n {
      hide SeparatesAfter;
      FirstSemicolon(s[n..], p - n);
      SeparatesShifted(s, n, NextSemicolon(s[n..]), p);
      assert s[n..][p - n] == s[p];
    }
  }

  lemma CutShifts(ps: seq<string>, n: nat, p: nat)
    requires |ps| > 1 && n == |ps[0]| + 1 && p >= n
    ensures IsCut(ps, p) <==> IsCut(ps[1..], p - n)
  {
    if j :| 0 <= j < |ps| - 1 && Cut(ps, j) == p {
      assert Cut(ps[1..], j - 1) == p - n;
    }
    if j :| 0 <= j < |ps[1..]| - 1 && Cut(ps[1..], j) == p - n {
      assert Cut(ps, j + 1) == p;
    }
  }

  /** The cuts are exactly the semicolons that lie outside every region. */
  lemma {:induction false} CutsAreTopLevelSemicolons(s: string, p: nat)
    requires p < |s|
    ensures IsCut(Pieces(s), p) <==> s[p] == ';' && TopLevel(s, p)
    decreases |s|
  {
    hide NextSemicolon, TopLevel;
    var k := NextSemicolon(s);
    FirstSemicolon(s, p);
    var ps := Pieces(s);
    if k < |s| {
      var rest := Pieces(s[k + 1..]);
      assert ps == [s[..k]] + rest && ps[1..] == rest;
      assert Cut(ps, 0) == k;
      if p > k {
        CutsAreTopLevelSemicolons(s[k + 1..], p - k - 1);
        CutShifts(ps, k + 1, p);
      } else {
        forall j | 0 < j < |ps| - 1 ensures Cut(ps, j) > k {
        }
        assert p == k ==> 0 <= 0 < |ps| - 1 && Cut(ps, 0) == p;
      }
    }
  }

  // ----- where the program takes a semicolon for a separator -----

  ghost predicate ProperTopLevel(s: string, p: nat)
    decreases |s|
  {
    || p == 0
    || (s != [] && ProperTokenLength(s) <= p && ProperTopLevel(s[ProperTokenLength(s)..], p - ProperTokenLength(s)))
  }

  /** As far as no such comment has been met, the two lexers are outside every region at the same positions. */
  lemma {:induction false} TopLevelsAgree(s: string, p: nat)
    requires p <= |s| && forall q: nat :: q < p && TopLevel(s, q) ==> !ShortComment(s[q..])
    ensures TopLevel(s, p) <==> ProperTopLevel(s, p)
    decreases |s|
  {
    hide TokenLength, ProperTokenLength, ShortComment;
    if p > 0 {
      assert TopLevel(s, 0) && s[0..] == s;
      TokensAgreeIff(s);
      var n := TokenLength(s);
      if n <= p {
        forall q: nat | q < p - n && TopLevel(s[n..], q) ensures !ShortComment(s[n..][q..]) {
          TopLevelStep(s, n + q);
          assert s[n..][q..] == s[n + q..];
        }
        TopLevelsAgree(s[n..], p - n);
      }
    }
  }

  lemma {:induction false} TopLevelFrom(s: string, p: nat, q: nat)
    requires p <= |s| && TopLevel(s, p)
    ensures TopLevel(s, p + q) <==> TopLevel(s[p..], q)
    decreases |s|
  {
    hide TokenLength, NextSemicolon, TopLevel;
    if p == 0 {
      assert s[0..] == s;
    } else {
      var n := TokenLength(s);
      TopLevelStep(s, p);
      TopLevelStep(s, p + q);
      TopLevelFrom(s[n..], p - n, q);
      assert s[n..][p - n..] == s[p..];
    }
  }

  lemma ProperTopLevelStep(s: string, p: nat)
    requires s != []
    ensures var n := ProperTokenLength(s);
            ProperTopLevel(s, p) <==> p == 0 || (n <= p && ProperTopLevel(s[n..], p - n))
  {
    hide ProperTokenLength;
  }

  lemma {:induction false} ProperTopLevelFrom(s: string, p: nat, q: nat)
    requires p <= |s| && ProperTopLevel(s, p)
    ensures ProperTopLevel(s, p + q) <==> ProperTopLevel(s[p..], q)
    decreases |s|
  {
    hide ProperTokenLength, ProperTopLevel;
    if p == 0 {
      assert s[0..] == s;
    } else {
      var n := ProperTokenLength(s);
      ProperTopLevelStep(s, p);
      ProperTopLevelStep(s, p + q);
      ProperTopLevelFrom(s[n..], p - n, q);
      assert s[n..][p - n..] == s[p..];
    }
  }

  lemma FindNext(s: string, t: string)
    requires |s| >= |t| > 0 && s[0] != t[0]
    ensures Find(s, t) == 1 + Find(s[1..], t)
  {
  }

  lemma ShortCommentTokens(s: string)
    requires SEMICOLON_INSIDE <= s
    ensures TokenLength(s) == 3 && ProperTokenLength(s) == 6
  {
    hide Find;
    var body := s[2..];
    assert RegionAt(s) == Some(Region(1, "*/")) && ProperRegionAt(s) == Some(Region(2, "*/"));
    assert "*/" <= s[1..];
    FindReaches(s[1..], "*/");
    assert body[0] == '/' && body[1..][0] == ';' && body[1..][1..][0] == '*' && body[1..][1..][1] == '/';
    FindNext(body, "*/");
    FindNext(body[1..], "*/");
    FindReaches(body[1..][1..], "*/");
  }

  /**
   Wherever the lexers have agreed so far, a comment that starts this way and holds a semicolon is cut at
   it by the program, and at no other reading of the comment: none of these inputs escapes.
   */
  lemma ShortCommentSplits(s: string, p: nat)
    requires p < |s| && SEMICOLON_INSIDE <= s[p..] && TopLevel(s, p)
    requires forall q: nat :: q < p && TopLevel(s, q) ==> !ShortComment(s[q..])
    ensures p + 3 < |s| && IsCut(Pieces(s), p + 3) && ProperTopLevel(s, p) && !ProperTopLevel(s, p + 3)
  {
    hide TokenLength, ProperTokenLength, Pieces, IsCut, ShortComment;
    var t := s[p..];
    assert t[3] == s[p + 3];
    ShortCommentTokens(t);
    TopLevelsAgree(s, p);
    TopLevelFrom(s, p, 3);
    ProperTopLevelFrom(s, p, 3);
    CutsAreTopLevelSemicolons(s, p + 3);
  }

  lemma PlainStep(s: string)
    requires s != [] && s[0] != ';' && RegionAt(s).None?
    ensures NextSemicolon(s) == 1 + NextSemicolon(s[1..])
  {
    hide RegionAt;
  }

  lemma NoSemicolon(s: string)
    requires s == "*/"
    ensures NextSemicolon(s) == 2
  {
    hide NextSemicolon;
    PlainStep(s);
    PlainStep(s[1..]);
    assert s[1..][1..] == [];
  }

  lemma TwoPieces(s: string)
    requires s == SEMICOLON_INSIDE
    ensures Pieces(s) == [s[..3]] + [s[4..]]
  {
    hide TokenLength;
    var rest := s[3..];
    assert rest == ";*/" && s[..3] == "/*/" && s[4..] == "*/";
    ShortCommentTokens(s);
    assert NextSemicolon(s) == 3 + NextSemicolon(rest);
    NoSemicolon("*/");
  }

  lemma NotBlank(s: string)
    requires s != [] && !IsSpace(s[0]) && !IsSpace(s[|s| - 1])
    ensures Trim(s) == s && Cleaned([s]) == [s]
  {
    assert Cleaned([]) == [];
  }

  lemma TwoStatements(s: string)
    requires s == SEMICOLON_INSIDE
    ensures |Statements(s)| == 2 && Cleaned([s]) == [s]
  {
    hide Pieces, Trim, Cleaned;
    TwoPieces(s);
    NotBlank(s);
    NotBlank("/*/");
    NotBlank("*/");
    assert s[..3] == "/*/" && s[4..] == "*/";
    CleanedAppends([s[..3]], [s[4..]]);
  }

  /** The shortest such script: the semicolon in its one comment splits it. */
  lemma SemicolonInCommentSplits(s: string)
    requires s == SEMICOLON_INSIDE
    ensures IsCut(Pieces(s), 3)
    ensures ProperPieces(s) == [s] && forall p :: !IsCut(ProperPieces(s), p)
    ensures |Statements(s)| == 2 && ProperStatements(s) == [s]
  {
    assert s[0..] == s;
    ShortCommentTokens(s);
    ShortCommentSplits(s, 0);
    assert s[6..] == [];
    assert ProperNextSemicolon(s) == 6 + ProperNextSemicolon(s[6..]);
    TwoStatements(s);
  }

  // ----- what hides a semicolon, character by character -----

  /** From `p` up to `e` nothing stands outside of all regions, and `e` does again. */
  ghost predicate Hidden(s: string, p: nat, e: nat) { TopLevel(s, e) && forall k: nat :: p < k < e ==> !TopLevel(s, k) }

  lemma {:induction false} FindAt(s: string, t: string, n: nat)
    requires t != [] && n <= |s| && t <= s[n..] && forall k: nat :: k < n ==> !(t <= s[k..])
    ensures Find(s, t) == n + |t|
  {
    assert s[0..] == s;
    if n > 0 {
      forall k: nat | k < n - 1 ensures !(t <= s[1..][k..]) { assert s[1..][k..] == s[k + 1..]; }
      assert s[1..][n - 1..] == s[n..];
      FindAt(s[1..], t, n - 1);
    }
  }

  lemma {:induction false} FindNowhere(s: string, t: string)
    requires t != [] && forall k: nat :: k <= |s| ==> !(t <= s[k..])
    ensures Find(s, t) == |s|
  {
    assert s[0..] == s;
    if |s| >= |t| {
      forall k: nat | k <= |s| - 1 ensures !(t <= s[1..][k..]) { assert s[1..][k..] == s[k + 1..]; }
      FindNowhere(s[1..], t);
    }
  }

  /** `q` is where `t` occurs first from `from` on, or the end of the text when it does not. */
  ghost predicate IsNext(s: string, t: string, from: nat, q: nat) {
    && from <= q <= |s| && (q == |s| || t <= s[q..])
    && (forall k: nat :: from <= k < q ==> !(t <= s[k..]))
  }

  lemma FindNextIs(s: string, t: string, from: nat, q: nat)
    requires t != [] && IsNext(s, t, from, q)
    ensures from + Find(s[from..], t) == if q < |s| then q + |t| else |s|
  {
    var rest := s[from..];
    forall k: nat | k <= |rest| ensures rest[k..] == s[from + k..] {
    }
    if q < |s| { FindAt(rest, t, q - from); } else { FindNowhere(rest, t); }
  }

  lemma TopLevelAtStart(s: string)
    ensures TopLevel(s, 0)
  {
  }

  lemma InsideToken(s: string, p: nat, k: nat)
    requires p < |s| && TopLevel(s, p) && p < k < p + TokenLength(s[p..])
    ensures !TopLevel(s, k)
  {
    hide TokenLength, NextSemicolon, TopLevel;
    TopLevelStep(s[p..], k - p);
    TopLevelFrom(s, p, k - p);
  }

  lemma BehindToken(s: string, p: nat)
    requires p < |s| && TopLevel(s, p)
    ensures TopLevel(s, p + TokenLength(s[p..]))
  {
    hide TokenLength, NextSemicolon, TopLevel;
    var n := TokenLength(s[p..]);
    TopLevelStep(s[p..], n);
    TopLevelAtStart(s[p..][n..]);
    TopLevelFrom(s, p, n);
  }

  /** A token that starts outside of all regions hides the rest of itself. */
  lemma TokenHides(s: string, p: nat)
    requires p < |s| && TopLevel(s, p)
    ensures Hidden(s, p, p + TokenLength(s[p..]))
  {
    hide TokenLength, TopLevel;
    BehindToken(s, p);
    forall k: nat | p < k < p + TokenLength(s[p..]) ensures !TopLevel(s, k) {
      InsideToken(s, p, k);
    }
  }

  lemma RegionHides(s: string, p: nat, open: nat, close: string, q: nat)
    requires p < |s| && TopLevel(s, p) && RegionAt(s[p..]) == Some(Region(open, close))
    requires IsNext(s, close, p + open, q)
    ensures Hidden(s, p, if q < |s| then q + |close| else |s|)
  {
    hide RegionAt, Hidden, TopLevel, Find, IsNext;
    FindNextIs(s, close, p + open, q);
    assert TokenLength(s[p..]) == open + Find(s[p + open..], close) by { assert s[p..][open..] == s[p + open..]; }
    hide TokenLength;
    TokenHides(s, p);
  }

  /** From one single quote to the next nothing separates statements; without a next one, to the end. */
  lemma QuoteHides(s: string, p: nat, q: nat)
    requires p < q <= |s| && TopLevel(s, p) && s[p] == '\'' && (q == |s| || s[q] == '\'')
    requires forall k: nat :: p < k < q ==> s[k] != '\''
    ensures Hidden(s, p, if q < |s| then q + 1 else |s|)
  {
    hide Hidden, TopLevel;
    assert s[p..][0] == '\'' && (q < |s| ==> s[q..][0] == s[q]);
    forall k: nat | p < k < q ensures !("'" <= s[k..]) { assert s[k..][0] == s[k]; }
    RegionHides(s, p, 1, "'", q);
  }

  /** Nor does anything from two hyphens to the end of the line. */
  lemma LineCommentHides(s: string, p: nat, q: nat)
    requires p + 1 < q <= |s| && TopLevel(s, p) && s[p] == '-' && s[p + 1] == '-' && (q == |s| || s[q] == '\n')
    requires forall k: nat :: p < k < q ==> s[k] != '\n'
    ensures Hidden(s, p, if q < |s| then q + 1 else |s|)
  {
    hide Hidden, TopLevel;
    assert s[p..][0] == '-' && s[p..][1] == '-' && (q < |s| ==> s[q..][0] == s[q]);
    forall k: nat | p < k < q ensures !("\n" <= s[k..]) { assert s[k..][0] == s[k]; }
    RegionHides(s, p, 1, "\n", q);
  }

  ghost predicate ClosesComment(s: string, k: nat) { k + 1 < |s| && s[k] == '*' && s[k + 1] == '/' }

  lemma CloserHere(s: string, k: nat)
    requires k < |s|
    ensures "*/" <= s[k..] <==> ClosesComment(s, k)
  {
    assert s[k..][0] == s[k] && (k + 1 < |s| ==> s[k..][1] == s[k + 1]);
  }

  /** Nor from slash and asterisk to asterisk and slash; the asterisk of the opening may be that of the end. */
  lemma BlockCommentHides(s: string, p: nat, q: nat)
    requires p + 1 < |s| && p < q <= |s| && TopLevel(s, p) && s[p] == '/' && s[p + 1] == '*'
    requires (q == |s| || ClosesComment(s, q)) && forall k: nat :: p < k < q ==> !ClosesComment(s, k)
    ensures Hidden(s, p, if q < |s| then q + 2 else |s|)
  {
    hide Hidden, TopLevel;
    assert s[p..][0] == '/' && s[p..][1] == '*';
    if q < |s| { CloserHere(s, q); }
    forall k: nat | p < k < q ensures !("*/" <= s[k..]) { CloserHere(s, k); }
    RegionHides(s, p, 1, "*/", q);
  }

  lemma BetweenIsNext(s: string, t: string, from: nat, q: nat)
    requires from <= q <= |s| && (q == |s| || t <= s[q..]) && forall k: nat :: from <= k < q ==> !(t <= s[k..])
    ensures IsNext(s, t, from, q)
  {
  }

  lemma ProperTopLevelAtStart(s: string)
    ensures ProperTopLevel(s, 0)
  {
  }

  /** To the other lexer the end of a comment lies behind its opening. */
  lemma CommentHidesProperly(s: string, p: nat, q: nat)
    requires p + 2 <= q <= |s| && ProperTopLevel(s, p) && s[p] == '/' && s[p + 1] == '*'
    requires (q == |s| || ClosesComment(s, q)) && forall k: nat :: p + 2 <= k < q ==> !ClosesComment(s, k)
    ensures var e := if q < |s| then q + 2 else |s|;
            ProperTopLevel(s, e) && forall k: nat :: p < k < e ==> !ProperTopLevel(s, k)
  {
    hide ProperTopLevel, Find, IsNext, ClosesComment;
    var rest := s[p..];
    assert rest[0] == '/' && rest[1] == '*';
    if q < |s| { CloserHere(s, q); }
    forall k: nat | p + 2 <= k < q ensures !("*/" <= s[k..]) { CloserHere(s, k); }
    assert IsNext(s, "*/", p + 2, q) by { BetweenIsNext(s, "*/", p + 2, q); }
    FindNextIs(s, "*/", p + 2, q);
    assert ProperTokenLength(rest) == 2 + Find(s[p + 2..], "*/") by { assert rest[2..] == s[p + 2..]; }
    hide ProperTokenLength;
    var n := ProperTokenLength(rest);
    assert rest[n..] == s[p + n..];
    ProperTopLevelStep(rest, n);
    ProperTopLevelAtStart(rest[n..]);
    ProperTopLevelFrom(s, p, n);
    forall k: nat | p < k < p + n ensures !ProperTopLevel(s, k) {
      ProperTopLevelStep(rest, k - p);
      ProperTopLevelFrom(s, p, k - p);
    }
  }

  /** A dollar quote: two dollars, with a name of letters, digits and underscores between them that no digit starts. */
  ghost predicate IsTag(t: string) {
    && |t| >= 2 && t[0] == '$' && t[|t| - 1] == '$'
    && (forall k :: 0 < k < |t| - 1 ==>
          'a' <= t[k] <= 'z' || 'A' <= t[k] <= 'Z' || '0' <= t[k] <= '9' || t[k] == '_')
    && (|t| > 2 ==> !('0' <= t[1] <= '9'))
  }

  lemma {:induction false} NameEnds(s: string, n: nat)
    requires n < |s| && !IsNamePart(s[n]) && forall k :: 0 <= k < n ==> IsNamePart(s[k])
    ensures NameLength(s) == n
  {
    if n > 0 { NameEnds(s[1..], n - 1); }
  }

  lemma TagFound(s: string, t: string)
    requires IsTag(t) && t <= s
    ensures DollarTag(s) == t
  {
    var n := |t| - 2;
    assert forall k :: 0 <= k < |t| ==> s[k] == t[k];
    if n > 0 {
      assert forall k :: 0 <= k < n ==> s[1..][k] == t[k + 1];
      assert s[1..][n] == '$';
      NameEnds(s[1..], n);
    }
    assert t == s[..n + 2];
  }

  lemma TagIsTag(s: string)
    ensures DollarTag(s) == [] || IsTag(DollarTag(s))
  {
    if DollarTag(s) != [] && s[1] != '$' {
      var n := NameLength(s[1..]);
      forall k | 0 < k < n + 1 ensures IsNamePart(s[k]) { assert s[k] == s[1..][k - 1]; }
    }
  }

  /** Nor from a dollar quote to its next occurrence. */
  lemma DollarBodyHides(s: string, p: nat, t: string, q: nat)
    requires p < |s| && TopLevel(s, p) && IsTag(t) && t <= s[p..] && IsNext(s, t, p + |t|, q)
    ensures Hidden(s, p, if q < |s| then q + |t| else |s|)
  {
    hide Hidden, TopLevel, DollarTag, IsNext;
    TagFound(s[p..], t);
    assert s[p..][0] == '$';
    RegionHides(s, p, |t|, t, q);
  }

  /** Everything else hides nothing: what follows a character that opens none of these stands outside as it does. */
  lemma OtherwiseNothingHides(s: string, p: nat)
    requires p < |s| && TopLevel(s, p) && s[p] != '\''
    requires p + 1 < |s| ==> !(s[p] == '-' && s[p + 1] == '-') && !(s[p] == '/' && s[p + 1] == '*')
    requires forall t :: IsTag(t) ==> !(t <= s[p..])
    ensures TopLevel(s, p + 1)
  {
    hide TopLevel, DollarTag, IsTag;
    var rest := s[p..];
    assert rest[0] == s[p] && (|rest| >= 2 ==> rest[1] == s[p + 1]);
    TagIsTag(rest);
    assert DollarTag(rest) <= rest;
    assert TokenLength(rest) == 1;
    TokenHides(s, p);
  }

  // ----- trimming -----

  ghost predicate Blank(s: string) { forall i :: 0 <= i < |s| ==> IsSpace(s[i]) }

  ghost predicate Trimmed(s: string) { s != [] ==> !IsSpace(s[0]) && !IsSpace(s[|s| - 1]) }

  /** The white space of ECMAScript by its code points. */
  lemma SpaceCodes(c: char)
    ensures IsSpace(c) <==>
              || 0x09 <= c as int <= 0x0D || c as int in {0x20, 0xA0, 0x1680, 0x202F, 0x205F, 0x3000, 0xFEFF}
              || 0x2000 <= c as int <= 0x200A || 0x2028 <= c as int <= 0x2029
  {
  }

  lemma {:induction false} TrimStartSplits(s: string) returns (lead: string)
    ensures s == lead + TrimStart(s) && Blank(lead)
    ensures TrimStart(s) != [] ==> !IsSpace(TrimStart(s)[0])
  {
    hide IsSpace;
    if s != [] && IsSpace(s[0]) {
      lead := TrimStartSplits(s[1..]);
      lead := [s[0]] + lead;
    } else {
      lead := [];
    }
  }

  lemma {:induction false} TrimEndSplits(s: string) returns (trail: string)
    ensures s == TrimEnd(s) + trail && Blank(trail)
    ensures TrimEnd(s) != [] ==> !IsSpace(TrimEnd(s)[|TrimEnd(s)| - 1]) && TrimEnd(s)[0] == s[0]
  {
    hide IsSpace;
    if s != [] && IsSpace(s[|s| - 1]) {
      trail := TrimEndSplits(s[..|s| - 1]);
      trail := trail + [s[|s| - 1]];
    } else {
      trail := [];
    }
  }

  /** Trimming removes white space at both ends and nothing else. */
  lemma TrimSplits(s: string) returns (lead: string, trail: string)
    ensures s == lead + Trim(s) + trail && Blank(lead) && Blank(trail) && Trimmed(Trim(s))
  {
    hide IsSpace;
    lead := TrimStartSplits(s);
    trail := TrimEndSplits(TrimStart(s));
    assert s == lead + (Trim(s) + trail);
  }

  lemma {:induction false} TrimStartDrops(lead: string, w: string)
    requires Blank(lead)
    ensures TrimStart(lead + w) == TrimStart(w)
  {
    if lead == [] {
      assert lead + w == w;
    } else {
      assert (lead + w)[1..] == lead[1..] + w;
      TrimStartDrops(lead[1..], w);
    }
  }

  lemma {:induction false} TrimEndDrops(w: string, trail: string)
    requires Blank(trail)
    ensures TrimEnd(w + trail) == TrimEnd(w)
  {
    if trail == [] {
      assert w + trail == w;
    } else {
      assert (w + trail)[..|w + trail| - 1] == w + trail[..|trail| - 1];
      TrimEndDrops(w, trail[..|trail| - 1]);
    }
  }

  lemma TrimRestores(lead: string, w: string, trail: string)
    requires Blank(lead) && Blank(trail) && Trimmed(w) && w != []
    ensures Trim(lead + w + trail) == w
  {
    assert lead + w + trail == lead + (w + trail);
    TrimStartDrops(lead, w + trail);
    assert (w + trail)[0] == w[0];
    TrimEndDrops(w, trail);
  }

  /** Every statement is non-empty and trimmed. */
  lemma {:induction false} StatementsAreTrimmed(ps: seq<string>)
    ensures forall w :: w in Cleaned(ps) ==> w != [] && Trimmed(w)
  {
    hide Trim;
    if ps != [] {
      StatementsAreTrimmed(ps[1..]);
      var lead, trail := TrimSplits(ps[0]);
    }
  }

  // ----- splitting again -----

  /** A character that can be part of no opening delimiter and ends every name: white space or a semicolon. */
  predicate Boundary(c: char) { IsSpace(c) || c == ';' }

  ghost predicate Bounded(tail: string) { tail == [] || Boundary(tail[0]) }

  lemma BoundaryIsPlain(c: char)
    requires Boundary(c)
    ensures !IsNamePart(c) && c != '$' && c != '-' && c != '*' && c != '/' && c != '\''
  {
  }

  lemma {:induction false} NameIsLocal(w: string, tail: string)
    requires Bounded(tail)
    ensures NameLength(w + tail) == NameLength(w)
  {
    if w == [] {
      assert w + tail == tail;
      if tail != [] { BoundaryIsPlain(tail[0]); }
    } else {
      assert (w + tail)[1..] == w[1..] + tail;
      NameIsLocal(w[1..], tail);
    }
  }

  lemma TagIsLocal(w: string, tail: string)
    requires Bounded(tail)
    ensures DollarTag(w + tail) == DollarTag(w)
  {
    hide Boundary, NameLength;
    if tail != [] { BoundaryIsPlain(tail[0]); }
    var u := w + tail;
    if |w| < 2 {
      if |u| >= 2 && w != [] { assert u[1] == tail[0]; }
      if w == [] && tail != [] { assert u[0] == tail[0]; }
    } else {
      assert u[1..] == w[1..] + tail;
      NameIsLocal(w[1..], tail);
      var n := NameLength(w[1..]);
      if 1 + n < |w| {
        assert u[..n + 2] == w[..n + 2];
      } else if 1 + n < |u| {
        assert u[1 + n] == tail[0];
      }
      assert u[..2] == w[..2];
    }
  }

  /** Whether a region opens does not depend on what follows the text, only that a boundary does. */
  lemma RegionIsLocal(w: string, tail: string)
    requires Bounded(tail) && w != []
    ensures RegionAt(w + tail) == RegionAt(w)
  {
    hide Boundary, DollarTag;
    TagIsLocal(w, tail);
    if tail != [] { BoundaryIsPlain(tail[0]); }
    if |w| == 1 && tail != [] { assert (w + tail)[1] == tail[0]; }
  }

  predicate Occurs(s: string, t: string) {
    |s| >= |t| && (t <= s || (s != [] && Occurs(s[1..], t)))
  }

  /** An occurrence that ends within `w` is found no matter what follows. */
  lemma {:induction false} FindIsLocal(w: string, tail: string, t: string)
    requires t != []
    ensures Find(w + tail, t) <= |w| && Occurs(w, t) ==> Find(w + tail, t) == Find(w, t)
    ensures Occurs(w, t) ==> Find(w + tail, t) == Find(w, t)
    ensures !Occurs(w, t) ==> Find(w, t) == |w|
  {
    if |w| >= |t| {
      assert t <= w <==> t <= w + tail;
      if !(t <= w) {
        assert (w + tail)[1..] == w[1..] + tail;
        FindIsLocal(w[1..], tail, t);
      }
    }
  }

  lemma {:induction false} FindEnds(s: string, t: string)
    requires t != []
    ensures var e := Find(s, t); e == |s| || (e > 0 && s[e - 1] == t[|t| - 1])
  {
    if |s| >= |t| && !(t <= s) { FindEnds(s[1..], t); }
  }

  /** Without an occurrence in `w`, the search in `w + tail` ends beyond `w`, at an occurrence or at the end. */
  lemma {:induction false} FindBeyond(w: string, tail: string, t: string)
    requires t != [] && !Occurs(w, t)
    ensures var e := Find(w + tail, t);
            || e == |w + tail|
            || (e > |w| && (w + tail)[e - 1] == t[|t| - 1])
  {
    var s := w + tail;
    if |s| >= |t| && !(t <= s) && w != [] {
      assert s[1..] == w[1..] + tail;
      FindBeyond(w[1..], tail, t);
    } else if |s| >= |t| && !(t <= s) {
      assert s == tail;
      FindEnds(s, t);
    } else if t <= s {
      assert |t| <= |w| ==> t <= w;
    }
  }

  /** Only the line comment's closing delimiter is white space. */
  lemma ClosersEndVisibly(s: string)
    requires RegionAt(s).Some?
    ensures var c := RegionAt(s).value.close; c != "\n" ==> !Boundary(c[|c| - 1])
  {
    hide Boundary, DollarTag;
    var c := RegionAt(s).value.close;
    var last := c[|c| - 1];
    assert c == "\n" || last == '\'' || last == '/' || last == '$';
    if Boundary(last) { BoundaryIsPlain(last); }
  }

  lemma {:induction false} FindNewline(w: string, v: string)
    requires !Occurs(w, "\n") && v != [] && v[0] == '\n'
    ensures Find(w + v, "\n") == |w| + 1
  {
    var u := w + v;
    if w == [] {
      assert u == v && "\n" <= v;
    } else {
      assert !("\n" <= w) && u[0] == w[0];
      assert u[1..] == w[1..] + v;
      FindNewline(w[1..], v);
    }
  }

  lemma NotAtSemicolon(s: string)
    requires s != [] && NextSemicolon(s) > 0
    ensures s[0] != ';'
  {
  }

  lemma RegionStep(s: string)
    requires RegionAt(s).Some?
    ensures var r := RegionAt(s).value;
            var e := Find(s[r.open..], r.close);
            NextSemicolon(s) == r.open + e + NextSemicolon(s[r.open..][e..])
  {
    hide RegionAt, Find;
    RegionIsNoSemicolon(s);
    var r := RegionAt(s).value;
    var e := Find(s[r.open..], r.close);
    assert TokenLength(s) == r.open + e;
    assert s[r.open..][e..] == s[r.open + e..];
  }

  lemma BlankIsPlain(s: string)
    requires s != [] && IsSpace(s[0])
    ensures NextSemicolon(s) == 1 + NextSemicolon(s[1..])
  {
    hide NextSemicolon;
    BoundaryIsPlain(s[0]);
    PlainStep(s);
  }

  lemma {:induction false} SkipBlank(lead: string, s: string)
    requires Blank(lead)
    ensures NextSemicolon(lead + s) == |lead| + NextSemicolon(s)
  {
    hide NextSemicolon, IsSpace;
    if lead == [] {
      assert lead + s == s;
    } else {
      assert (lead + s)[1..] == lead[1..] + s;
      BlankIsPlain(lead + s);
      SkipBlank(lead[1..], s);
    }
  }

  /** `tail` is white space up to a semicolon or the end, and the statement `w` before it reaches just that far. */
  ghost predicate EndsStatement(w: string, tail: string, m: nat) {
    && m <= |tail| && Blank(tail[..m]) && (m == |tail| || tail[m] == ';')
    && NextSemicolon(w + tail) == |w| + m
  }

  /** What follows the statement when it is joined again: nothing at all, or a line break and a semicolon. */
  ghost predicate Rejoins(tail: string, m: nat, v: string) {
    v == [] || (|v| >= 2 && v[0] == '\n' && v[1] == ';' && m < |tail|)
  }

  lemma TailBounds(w: string, tail: string, m: nat, v: string)
    requires EndsStatement(w, tail, m) && Rejoins(tail, m, v)
    ensures Bounded(tail) && Bounded(v)
  {
    if m > 0 { assert tail[..m][0] == tail[0]; }
  }

  /** The front of a joined statement's continuation: its separator is one line break away. */
  lemma SeparatorAhead(v: string)
    requires v == [] || (|v| >= 2 && v[0] == '\n' && v[1] == ';')
    ensures NextSemicolon(v) == if v == [] then 0 else 1
    ensures v != [] ==> NextSemicolon(v[1..]) == 0
  {
    hide TokenLength;
    if v != [] {
      assert IsSpace('\n');
      BlankIsPlain(v);
    }
  }

  /** A region that closes within the statement closes there whatever follows. */
  lemma SameEnd(body: string, tail: string, v: string, close: string) returns (f: nat)
    requires close != [] && Occurs(body, close)
    ensures f <= |body| && Find(body + tail, close) == f && Find(body + v, close) == f
    ensures (body + tail)[f..] == body[f..] + tail && (body + v)[f..] == body[f..] + v
  {
    hide Find, Occurs;
    FindIsLocal(body, tail, close);
    FindIsLocal(body, v, close);
    f := Find(body, close);
  }

  /** Only a line comment is closed by the white space after a statement. */
  lemma LineCommentCloses(w: string, body: string, tail: string, m: nat, close: string)
    requires m < |tail| && Blank(tail[..m]) && close != [] && !Occurs(body, close)
    requires RegionAt(w).Some? && close == RegionAt(w).value.close
    requires Find(body + tail, close) <= |body| + m
    ensures close == "\n"
  {
    hide RegionAt, Find, Occurs, IsSpace;
    FindBeyond(body, tail, close);
    ClosersEndVisibly(w);
    var e := Find(body + tail, close);
    assert (body + tail)[e - 1] == tail[..m][e - 1 - |body|];
  }

  /** A region still open at the end of the statement is a line comment, or nothing follows. */
  lemma OpenEnd(w: string, body: string, tail: string, m: nat, v: string, close: string)
    requires m <= |tail| && Blank(tail[..m]) && close != [] && !Occurs(body, close) && Rejoins(tail, m, v)
    requires RegionAt(w).Some? && close == RegionAt(w).value.close
    requires Find(body + tail, close) <= |body| + m
    ensures var e := Find(body + v, close); e + NextSemicolon((body + v)[e..]) == |body| + if v == [] then 0 else 1
  {
    hide NextSemicolon, RegionAt, Find, Blank, Occurs;
    FindIsLocal(body, v, close);
    SeparatorAhead(v);
    if v == [] {
      assert body + v == body && body[|body|..] == [];
    } else {
      LineCommentCloses(w, body, tail, m, close);
      FindNewline(body, v);
      assert (body + v)[|body| + 1..] == v[1..];
    }
  }

  /** A statement reads the same when it is joined again, even when it ends inside a region. */
  lemma {:induction false} Carry(w: string, tail: string, m: nat, v: string)
    requires EndsStatement(w, tail, m) && Rejoins(tail, m, v)
    ensures NextSemicolon(w + v) == |w| + if v == [] then 0 else 1
    decreases |w|
  {
    hide NextSemicolon, RegionAt, Find, Bounded, Blank;
    TailBounds(w, tail, m, v);
    SeparatorAhead(v);
    if w == [] {
      assert w + v == v;
    } else {
      RegionIsLocal(w, tail);
      RegionIsLocal(w, v);
      if RegionAt(w).None? {
        NotAtSemicolon(w + tail);
        PlainStep(w + tail);
        PlainStep(w + v);
        assert (w + tail)[1..] == w[1..] + tail && (w + v)[1..] == w[1..] + v;
        Carry(w[1..], tail, m, v);
      } else {
        CarryRegion(w, tail, m, v);
      }
    }
  }

  lemma {:induction false} CarryRegion(w: string, tail: string, m: nat, v: string)
    requires EndsStatement(w, tail, m) && Rejoins(tail, m, v) && Bounded(tail) && Bounded(v)
    requires RegionAt(w).Some? && RegionAt(w + tail) == RegionAt(w) == RegionAt(w + v)
    ensures NextSemicolon(w + v) == |w| + if v == [] then 0 else 1
    decreases |w|, 0
  {
    hide NextSemicolon, RegionAt, Find, Bounded, Blank, Occurs;
    var r := RegionAt(w).value;
    var body := w[r.open..];
    assert (w + tail)[r.open..] == body + tail && (w + v)[r.open..] == body + v;
    RegionStep(w + tail);
    RegionStep(w + v);
    if Occurs(body, r.close) {
      var f := SameEnd(body, tail, v, r.close);
      Carry(body[f..], tail, m, v);
    } else {
      OpenEnd(w, body, tail, m, v, r.close);
    }
  }

  lemma {:induction false} BlankOnly(s: string)
    requires Blank(s)
    ensures Statements(s) == []
  {
    hide IsSpace;
    SkipBlank(s, []);
    assert s + [] == s;
    TrimStartDrops(s, []);
    CleanedOne(s);
  }

  lemma FirstStatement(s: string)
    ensures var k := NextSemicolon(s);
            Statements(s) == Cleaned([s[..k]]) + if k < |s| then Statements(s[k + 1..]) else []
  {
    hide NextSemicolon, Cleaned;
    var k := NextSemicolon(s);
    if k < |s| {
      CleanedAppends([s[..k]], Pieces(s[k + 1..]));
    } else {
      assert s[..k] == s;
    }
  }

  lemma JoinFew(w: string, separator: string)
    ensures Join([], separator) == [] && Join([w], separator) == w
  {
  }

  lemma NewlineIsBlank()
    ensures Blank("\n")
  {
  }

  /** The first statement of a script, without the white space around it, and what follows it. */
  lemma FirstEnds(s: string) returns (tail: string, m: nat)
    ensures EndsStatement(Trim(s[..NextSemicolon(s)]), tail, m) && (NextSemicolon(s) < |s| ==> m < |tail|)
  {
    hide NextSemicolon, Trim, IsSpace, Trimmed;
    var k := NextSemicolon(s);
    var l, tr := TrimSplits(s[..k]);
    var w := Trim(s[..k]);
    tail, m := tr + s[k..], |tr|;
    assert s == l + (w + tail);
    SkipBlank(l, w + tail);
    assert tail[..m] == tr;
  }

  /** Behind any white space, the first statement of a script ends where it ended there. */
  lemma CutAsBefore(s: string, lead: string, v: string)
    requires Blank(lead)
    requires v == [] || (NextSemicolon(s) < |s| && |v| >= 2 && v[0] == '\n' && v[1] == ';')
    ensures var w := Trim(s[..NextSemicolon(s)]);
            NextSemicolon(lead + (w + v)) == |lead| + |w| + if v == [] then 0 else 1
  {
    hide NextSemicolon, Trim, Blank, EndsStatement;
    var w := Trim(s[..NextSemicolon(s)]);
    var tail, m := FirstEnds(s);
    Carry(w, tail, m, v);
    SkipBlank(lead, w + v);
  }

  lemma JoinMore(w: string, rest: seq<string>)
    requires rest != []
    ensures Join([w] + rest, "\n;\n") == w + ("\n;" + ("\n" + Join(rest, "\n;\n")))
  {
    assert ([w] + rest)[1..] == rest;
    assert "\n;\n" == "\n;" + "\n";
  }

  /** The first statement of a script comes out first again, followed by whatever the rest gives. */
  lemma JoinedStatement(s: string, lead: string, rest: seq<string>)
    requires Blank(lead)
    requires var k := NextSemicolon(s); Trim(s[..k]) != [] && (k == |s| ==> rest == [])
    ensures var w := Trim(s[..NextSemicolon(s)]);
            Statements(lead + Join([w] + rest, "\n;\n"))
              == [w] + if rest == [] then [] else Statements("\n" + Join(rest, "\n;\n"))
  {
    hide NextSemicolon, Trim, Cleaned, IsSpace, Join, Statements;
    var w := Trim(s[..NextSemicolon(s)]);
    var l, tr := TrimSplits(s[..NextSemicolon(s)]);
    var more := "\n" + Join(rest, "\n;\n");
    var v := if rest == [] then [] else "\n;" + more;
    var t := lead + (w + v);
    CutAsBefore(s, lead, v);
    FirstStatement(t);
    if rest == [] {
      assert [w] + rest == [w];
      JoinFew(w, "\n;\n");
      assert w + v == w && t[..NextSemicolon(t)] == lead + w + [];
      TrimRestores(lead, w, []);
    } else {
      JoinMore(w, rest);
      assert t[..NextSemicolon(t)] == lead + w + "\n";
      NewlineIsBlank();
      TrimRestores(lead, w, "\n");
      assert t[NextSemicolon(t) + 1..] == more;
    }
    CleanedOne(t[..NextSemicolon(t)]);
  }

  /** Joining the statements of a script, after any white space, and splitting again gives the same statements. */
  lemma {:induction false} SplitJoined(s: string, lead: string)
    requires Blank(lead)
    ensures Statements(lead + Join(Statements(s), "\n;\n")) == Statements(s)
    decreases |s|
  {
    hide NextSemicolon, Trim, Blank, Join;
    var k := NextSemicolon(s);
    var p := s[..k];
    var rest := if k < |s| then Statements(s[k + 1..]) else [];
    assert Statements(s) == Cleaned([p]) + rest by { FirstStatement(s); }
    CleanedOne(p);
    if Trim(p) == [] {
      assert Statements(s) == rest;
      if k < |s| {
        SplitJoined(s[k + 1..], lead);
      } else {
        assert Join([], "\n;\n") == [] by { JoinFew("", "\n;\n"); }
        assert lead + [] == lead;
        BlankOnly(lead);
      }
    } else {
      JoinedStatement(s, lead, rest);
      if rest != [] {
        assert Blank("\n") by { NewlineIsBlank(); }
        SplitJoined(s[k + 1..], "\n");
      }
    }
  }

  /** The round trip: the statements of any script, joined and split again, are the same statements. */
  lemma SplitAgain(sql: string)
    ensures Statements(Join(Statements(sql), "\n;\n")) == Statements(sql)
  {
    SplitJoined(sql, []);
    assert [] + Join(Statements(sql), "\n;\n") == Join(Statements(sql), "\n;\n");
  }
}
