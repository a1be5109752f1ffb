/**
 splitStatements of mysql/migrate.go. The code scans with an index, a buffer and two flags;
 the specification reads whole tokens (a quoted string, a comment, one character) off the front.
 A file is taken as its characters: every delimiter is ASCII, so in valid UTF-8 scanning bytes
 and scanning characters see the same delimiters.
 */
module SplitStatements {

  // ---- specification: tokens ----

  datatype Token = Text(text: string) | Comment | Semi

  predicate StartsLineComment(s: string) {
    || (s != "" && s[0] == '#')
    || (|s| >= 2 && s[0] == '-' && s[1] == '-' &&
        (|s| == 2 || s[2] == ' ' || s[2] == '\t' || s[2] == '\n' || s[2] == '\r'))
  }

  predicate StartsBlockComment(s: string) {
    |s| >= 2 && s[0] == '/' && s[1] == '*'
  }

  /** s starts inside '...' with an escaped or doubled pair. */
  predicate StartsPair(s: string) {
    |s| >= 2 && (s[0] == '\\' || (s[0] == '\'' && s[1] == '\''))
  }

  /** Characters of s, which starts inside '...', up to and with the closing quote. */
  function SingleLen(s: string): (n: nat)
    ensures n <= |s|
    ensures s != "" ==> n > 0
  {
    if s == "" then 0
    else if StartsPair(s) then 2 + SingleLen(s[2..])
    else if s[0] == '\'' then 1
    else 1 + SingleLen(s[1..])
  }

  /** Characters of s, which starts inside `...`, up to and with the closing backtick. */
  function BacktickLen(s: string): (n: nat)
    ensures n <= |s|
    ensures s != "" ==> n > 0
  {
    if s == "" then 0 else if s[0] == '`' then 1 else 1 + BacktickLen(s[1..])
  }

  /** Characters of s up to and with the first newline. */
  function LineLen(s: string): (n: nat)
    ensures n <= |s|
    ensures s != "" ==> n > 0
  {
    if s == "" then 0 else if s[0] == '\n' then 1 else 1 + LineLen(s[1..])
  }

  /** Characters of s, the inside of a block comment, up to and with the closing mark. */
  function BlockLen(s: string): (n: nat)
    ensures n <= |s|
  {
    if |s| < 2 then |s|
    else if s[0] == '*' && s[1] == '/' then 2
    else 1 + BlockLen(s[1..])
  }

  /** Length and kind of the first token. */
  function FirstToken(s: string): (r: (nat, Token))
    requires s != ""
    ensures 0 < r.0 <= |s|
  {
    if s[0] == '\'' then (var n := 1 + SingleLen(s[1..]); (n, Text(s[..n])))
    else if s[0] == '`' then (var n := 1 + BacktickLen(s[1..]); (n, Text(s[..n])))
    else if StartsLineComment(s) then (LineLen(s), Comment)
    else if StartsBlockComment(s) then (2 + BlockLen(s[2..]), Comment)
    else if s[0] == ';' then (1, Semi)
    else (1, Text(s[..1]))
  }

  predicate IsSpace(c: char) {
    || c == ' ' || '\t' <= c <= '\r' || c == '\U{85}' || c == '\U{A0}' || c == '\U{1680}'
    || '\U{2000}' <= c <= '\U{200A}' || c == '\U{2028}' || c == '\U{2029}'
    || c == '\U{202F}' || c == '\U{205F}' || c == '\U{3000}'
  }

  function TrimLeft(s: string): string {
    if s != "" && IsSpace(s[0]) then TrimLeft(s[1..]) else s
  }

  function TrimRight(s: string): string {
    if s != "" && IsSpace(s[|s| - 1]) then TrimRight(s[..|s| - 1]) else s
  }

  function Trim(s: string): string { TrimRight(TrimLeft(s)) }

  function Emit(buf: string): seq<string> {
    var stmt := Trim(buf);
    if stmt == "" then [] else [stmt]
  }

  /** The statements of s when buf is what the current one has so far. */
  function StatementsFrom(s: string, buf: string): seq<string>
    decreases |s|
  {
    if s == "" then Emit(buf)
    else
      var (n, t) := FirstToken(s);
      match t
      case Text(text) => StatementsFrom(s[n..], buf + text)
      case Comment => StatementsFrom(s[n..], buf)
      case Semi => Emit(buf) + StatementsFrom(s[n..], "")
  }

  function Statements(s: string): seq<string> { StatementsFrom(s, "") }

  // ---- the code ----

  /** The index of the newline that ends the line comment at i, or the last index. */
  method SkipToLineEnd(sql: string, i: nat) returns (j: nat)
    requires i < |sql|
    ensures j == i + LineLen(sql[i..]) - 1
  {
    j := i;
    while j < |sql|
      invariant i <= j <= |sql|
      invariant LineLen(sql[i..]) == j - i + LineLen(sql[j..])
    {
      if sql[j] == '\n' {
        return j;
      }
      assert sql[j..][1..] == sql[j + 1..];
      j := j + 1;
    }
    return |sql| - 1;
  }

  /** The index of the '/' that closes the block comment whose body starts at i, or the last index. */
  method SkipBlockComment(sql: string, i: nat) returns (j: nat)
    requires 0 < i <= |sql|
    ensures j == i + BlockLen(sql[i..]) - 1
  {
    j := i;
    while j + 1 < |sql|
      invariant i <= j <= |sql|
      invariant BlockLen(sql[i..]) == j - i + BlockLen(sql[j..])
    {
      if sql[j] == '*' && sql[j + 1] == '/' {
        return j + 1;
      }
      assert sql[j..][1..] == sql[j + 1..];
      j := j + 1;
    }
    return |sql| - 1;
  }

  /** Where the scanner stands. */
  datatype Scan = Scan(i: nat, buf: string, inSingle: bool, inBacktick: bool)

  /** What the scanner still has to produce. */
  ghost function Owed(sql: string, p: Scan): seq<string>
    requires p.i <= |sql|
  {
    var s := sql[p.i..];
    if p.inSingle then StatementsFrom(s[SingleLen(s)..], p.buf + s[..SingleLen(s)])
    else if p.inBacktick then StatementsFrom(s[BacktickLen(s)..], p.buf + s[..BacktickLen(s)])
    else StatementsFrom(s, p.buf)
  }

  lemma Drop(sql: string, i: nat, k: nat)
    requires i + k <= |sql|
    ensures sql[i..][k..] == sql[i + k..] && sql[i..][..k] == sql[i..i + k]
  {
  }

  lemma SingleStep(sql: string, i: nat, buf: string, k: nat)
    requires i < |sql| && k == (if StartsPair(sql[i..]) then 2 else 1)
    ensures Owed(sql, Scan(i, buf, true, false))
         == Owed(sql, Scan(i + k, buf + sql[i..i + k], StartsPair(sql[i..]) || sql[i] != '\'', false))
  {
    var s := sql[i..];
    Drop(sql, i, k);
    if StartsPair(s) || s[0] != '\'' {
      var n := SingleLen(s[k..]);
      assert SingleLen(s) == k + n;
      assert s[k + n..] == s[k..][n..];
      assert buf + s[..k + n] == (buf + s[..k]) + s[k..][..n];
    }
  }

  lemma BacktickStep(sql: string, i: nat, buf: string)
    requires i < |sql|
    ensures Owed(sql, Scan(i, buf, false, true))
         == Owed(sql, Scan(i + 1, buf + sql[i..i + 1], false, sql[i] != '`'))
  {
    var s := sql[i..];
    Drop(sql, i, 1);
    if s[0] != '`' {
      var n := BacktickLen(s[1..]);
      assert s[1 + n..] == s[1..][n..];
      assert buf + s[..1 + n] == (buf + s[..1]) + s[1..][..n];
    }
  }

  lemma OpenQuote(sql: string, i: nat, buf: string)
    requires i < |sql| && (sql[i] == '\'' || sql[i] == '`')
    ensures Owed(sql, Scan(i, buf, false, false))
         == Owed(sql, Scan(i + 1, buf + sql[i..i + 1], sql[i] == '\'', sql[i] == '`'))
  {
    var s := sql[i..];
    Drop(sql, i, 1);
    var n := if s[0] == '\'' then SingleLen(s[1..]) else BacktickLen(s[1..]);
    assert s[1 + n..] == s[1..][n..];
    assert buf + s[..1 + n] == (buf + s[..1]) + s[1..][..n];
  }

  lemma OwedAtStart(sql: string)
    ensures [] + Owed(sql, Scan(0, "", false, false)) == Statements(sql)
  {
  }

  lemma OwedAtEnd(sql: string, p: Scan)
    requires p.i == |sql|
    ensures Owed(sql, p) == Emit(p.buf)
  {
    assert p.buf + "" == p.buf;
  }

  lemma CommentStep(sql: string, i: nat, buf: string, n: nat)
    requires i + n <= |sql| && i < |sql| && FirstToken(sql[i..]) == (n, Comment)
    ensures Owed(sql, Scan(i, buf, false, false)) == Owed(sql, Scan(i + n, buf, false, false))
  {
    Drop(sql, i, n);
  }

  lemma PlainStep(sql: string, i: nat, buf: string)
    requires i < |sql| && sql[i] != '\'' && sql[i] != '`'
    requires !StartsLineComment(sql[i..]) && !StartsBlockComment(sql[i..])
    ensures Owed(sql, Scan(i, buf, false, false)) ==
              if sql[i] == ';' then Emit(buf) + Owed(sql, Scan(i + 1, "", false, false))
              else Owed(sql, Scan(i + 1, buf + sql[i..i + 1], false, false))
  {
    Drop(sql, i, 1);
  }

  /** One turn of the loop inside '...'. */
  method ScanSingle(sql: string, i: nat, buf: string) returns (j: nat, buf': string, inSingle: bool)
    requires i < |sql|
    ensures i < j <= |sql|
    ensures Owed(sql, Scan(i, buf, true, false)) == Owed(sql, Scan(j, buf', inSingle, false))
  {
    hide Owed;
    var c := sql[i];
    j, buf', inSingle := i, buf + [c], true;
    if c == '\\' && i + 1 < |sql| {
      j := j + 1;
      buf' := buf' + [sql[j]];
    } else if c == '\'' && i + 1 < |sql| && sql[i + 1] == '\'' {
      j := j + 1;
      buf' := buf' + [sql[j]];
    } else if c == '\'' {
      inSingle := false;
    }
    j := j + 1;
    SingleStep(sql, i, buf, j - i);
    assert sql[i..j] == if j == i + 1 then [c] else [c] + [sql[i + 1]];
    assert buf' == buf + sql[i..j];
  }

  /** One turn of the loop inside `...`. */
  method ScanBacktick(sql: string, i: nat, buf: string) returns (j: nat, buf': string, inBacktick: bool)
    requires i < |sql|
    ensures i < j <= |sql|
    ensures Owed(sql, Scan(i, buf, false, true)) == Owed(sql, Scan(j, buf', false, inBacktick))
  {
    BacktickStep(sql, i, buf);
    assert [sql[i]] == sql[i..i + 1];
    j, buf', inBacktick := i + 1, buf + [sql[i]], sql[i] != '`';
  }

  /** The comment at i, if one starts there, ends before j. */
  method SkipComment(sql: string, i: nat) returns (found: bool, j: nat)
    requires i < |sql|
    ensures if found then i < j <= |sql| && sql[i] != '\'' && sql[i] != '`' && FirstToken(sql[i..]) == (j - i, Comment)
            else j == i && !StartsLineComment(sql[i..]) && !StartsBlockComment(sql[i..])
  {
    var c := sql[i];
    found := true;
    if c == '-' && i + 1 < |sql| && sql[i + 1] == '-' &&
       (i + 2 >= |sql| || sql[i + 2] == ' ' || sql[i + 2] == '\t' || sql[i + 2] == '\n' || sql[i + 2] == '\r') {
      j := SkipToLineEnd(sql, i);
    } else if c == '#' {
      j := SkipToLineEnd(sql, i);
    } else if c == '/' && i + 1 < |sql| && sql[i + 1] == '*' {
      Drop(sql, i, 2);
      j := SkipBlockComment(sql, i + 2);
    } else {
      return false, i;
    }
    j := j + 1;
  }

  /** splitStatements. */
  method Split(sql: string) returns (out: seq<string>)
    ensures out == Statements(sql)
    ensures forall x | x in out :: Trimmed(x)
  {
    hide *;
    out := [];
    OwedAtStart(sql);
    var buf := "";
    var inSingle, inBacktick := false, false;
    var i := 0;
    while i < |sql|
      invariant 0 <= i <= |sql|
      invariant !(inSingle && inBacktick)
      invariant out + Owed(sql, Scan(i, buf, inSingle, inBacktick)) == Statements(sql)
    {
      if inSingle {
        i, buf, inSingle := ScanSingle(sql, i, buf);
        continue;
      }
      if inBacktick {
        i, buf, inBacktick := ScanBacktick(sql, i, buf);
        continue;
      }
      var comment, j := SkipComment(sql, i);
      if comment {
        CommentStep(sql, i, buf, j - i);
        i := j;
        continue;
      }
      var c := sql[i];
      if c == ';' {
        PlainStep(sql, i, buf);
        out := out + Emit(buf);
        buf := "";
      } else {
        if c == '\'' || c == '`' {
          OpenQuote(sql, i, buf);
        } else {
          PlainStep(sql, i, buf);
        }
        assert buf + [c] == buf + sql[i..i + 1];
        inSingle, inBacktick := c == '\'', c == '`';
        buf := buf + [c];
      }
      i := i + 1;
    }
    // A quote or a comment still open at the end of the file ends there.
    OwedAtEnd(sql, Scan(i, buf, inSingle, inBacktick));
    out := out + Emit(buf);
    AllTrimmed(sql);
  }

  // ---- files made of statements ----

  /** White space as Unicode has it: what strings.TrimSpace trims. */
  const BLANKS: set<char> := {
    ' ', '\t', '\n', '\U{0B}', '\U{0C}', '\r', '\U{85}', '\U{A0}', '\U{1680}',
    '\U{2000}', '\U{2001}', '\U{2002}', '\U{2003}', '\U{2004}', '\U{2005}', '\U{2006}', '\U{2007}', '\U{2008}',
    '\U{2009}', '\U{200A}', '\U{2028}', '\U{2029}', '\U{202F}', '\U{205F}', '\U{3000}'
  }

  lemma SpaceIsBlank(c: char)
    ensures IsSpace(c) <==> c in BLANKS
  {
  }

  /** Not empty, and no white space at either end. */
  predicate Trimmed(s: string) { s != "" && s[0] !in BLANKS && s[|s| - 1] !in BLANKS }

  /** What may stand between statements: a blank, or a complete comment. */
  datatype Piece = Blank(c: char) | Line(dashes: bool, body: string) | Block(body: string)

  ghost predicate PieceOk(p: Piece) {
    match p
    case Blank(c) => c in BLANKS
    case Line(dashes, body) =>
      '\n' !in body && (dashes && body != "" ==> body[0] == ' ' || body[0] == '\t' || body[0] == '\r')
    case Block(body) => forall i | 0 <= i < |body| - 1 :: !(body[i] == '*' && body[i + 1] == '/')
  }

  function PieceText(p: Piece): string {
    match p
    case Blank(c) => [c]
    case Line(dashes, body) => (if dashes then "--" else "#") + body + "\n"
    case Block(body) => "/*" + body + "*/"
  }

  function GapText(gap: seq<Piece>): string {
    if gap == [] then "" else PieceText(gap[0]) + GapText(gap[1..])
  }

  ghost predicate GapOk(gap: seq<Piece>) {
    forall i | 0 <= i < |gap| :: PieceOk(gap[i])
  }

  /** Comment-free text whose quotes are closed and that has no ';' outside them. */
  ghost predicate Closed(s: string)
    decreases |s|
  {
    s == "" ||
    if s[0] == '\'' then SingleCloses(s[1..]) && Closed(s[1 + SingleLen(s[1..])..])
    else if s[0] == '`' then '`' in s[1..] && Closed(s[1 + BacktickLen(s[1..])..])
    else
      && s[0] != ';' && s[0] != '#'
      && !(|s| >= 2 && s[0] == '/' && s[1] == '*')
      && !(|s| >= 2 && s[0] == '-' && s[1] == '-'
           && (|s| == 2 || s[2] == ' ' || s[2] == '\t' || s[2] == '\n' || s[2] == '\r'))
      && Closed(s[1..])
  }

  /** s starts inside '...': a backslash takes the next character with it, a doubled quote is a quote. */
  ghost predicate SingleCloses(s: string) {
    s != "" &&
    if |s| >= 2 && (s[0] == '\\' || (s[0] == '\'' && s[1] == '\'')) then SingleCloses(s[2..])
    else s[0] == '\'' || SingleCloses(s[1..])
  }

  ghost predicate Clean(stmt: string) {
    Trimmed(stmt) && Closed(stmt)
  }

  datatype Entry = Entry(gap: seq<Piece>, stmt: string)

  ghost predicate FileOk(file: seq<Entry>) {
    forall i | 0 <= i < |file| :: GapOk(file[i].gap) && Clean(file[i].stmt)
  }

  /** Each statement after its gap, ended by ';', then a last gap. */
  function FileText(file: seq<Entry>, end: seq<Piece>): string {
    if file == [] then GapText(end)
    else GapText(file[0].gap) + file[0].stmt + ";" + FileText(file[1..], end)
  }

  function StatementsOf(file: seq<Entry>): seq<string> {
    if file == [] then [] else [file[0].stmt] + StatementsOf(file[1..])
  }

  // ---- trimming ----

  ghost predicate AllSpace(s: string) { forall i | 0 <= i < |s| :: IsSpace(s[i]) }

  lemma {:induction false} TrimLeftBlanks(b: string, s: string)
    requires AllSpace(b)
    ensures TrimLeft(b + s) == TrimLeft(s)
  {
    if b == "" {
      assert b + s == s;
    } else {
      assert (b + s)[1..] == b[1..] + s;
      TrimLeftBlanks(b[1..], s);
    }
  }

  lemma EmitAfterBlanks(b: string, stmt: string)
    requires AllSpace(b) && (stmt == "" || Trimmed(stmt))
    ensures Emit(b + stmt) == if stmt == "" then [] else [stmt]
  {
    TrimLeftBlanks(b, stmt);
    if stmt != "" {
      SpaceIsBlank(stmt[0]);
      SpaceIsBlank(stmt[|stmt| - 1]);
    }
  }

  lemma {:induction false} LeftEnd(s: string)
    ensures TrimLeft(s) != "" ==> !IsSpace(TrimLeft(s)[0])
  {
    if s != "" && IsSpace(s[0]) { LeftEnd(s[1..]); }
  }

  lemma {:induction false} RightEnd(s: string)
    requires s != "" ==> !IsSpace(s[0])
    ensures TrimRight(s) != "" ==> !IsSpace(TrimRight(s)[0]) && !IsSpace(TrimRight(s)[|TrimRight(s)| - 1])
  {
    if s != "" && IsSpace(s[|s| - 1]) { RightEnd(s[..|s| - 1]); }
  }

  lemma EmitTrims(buf: string)
    ensures forall x | x in Emit(buf) :: Trimmed(x)
  {
    LeftEnd(buf);
    RightEnd(TrimLeft(buf));
    if Trim(buf) != "" {
      SpaceIsBlank(Trim(buf)[0]);
      SpaceIsBlank(Trim(buf)[|Trim(buf)| - 1]);
    }
  }

  /** Whatever the input, no statement is empty and none begins or ends with white space. */
  lemma {:induction false} StatementsAreTrimmed(s: string, buf: string)
    ensures forall x | x in StatementsFrom(s, buf) :: Trimmed(x)
    decreases |s|
  {
    hide Emit, FirstToken, Trimmed;
    EmitTrims(buf);
    if s != "" {
      var (n, t) := FirstToken(s);
      match t
      case Text(text) => StatementsAreTrimmed(s[n..], buf + text);
      case Comment => StatementsAreTrimmed(s[n..], buf);
      case Semi => StatementsAreTrimmed(s[n..], "");
    }
  }

  lemma AllTrimmed(sql: string)
    ensures forall x | x in Statements(sql) :: Trimmed(x)
  {
    StatementsAreTrimmed(sql, "");
  }

  // ---- one token at a time, whatever follows ----

  lemma {:induction false} SingleLenStays(s: string, t: string)
    requires SingleCloses(s) && (t == "" || t[0] != '\'')
    ensures SingleLen(s + t) == SingleLen(s)
  {
    assert StartsPair(s + t) <==> StartsPair(s);
    if StartsPair(s) {
      assert (s + t)[2..] == s[2..] + t;
      SingleLenStays(s[2..], t);
    } else if s[0] != '\'' {
      assert (s + t)[1..] == s[1..] + t;
      SingleLenStays(s[1..], t);
    }
  }

  lemma {:induction false} BacktickLenStays(s: string, t: string)
    requires '`' in s
    ensures BacktickLen(s + t) == BacktickLen(s)
  {
    if s[0] != '`' {
      assert (s + t)[1..] == s[1..] + t;
      BacktickLenStays(s[1..], t);
    }
  }

  lemma {:induction false} LineLenOf(body: string, t: string)
    requires '\n' !in body
    ensures LineLen(body + "\n" + t) == |body| + 1
  {
    if body == "" {
      assert (body + "\n" + t)[0] == '\n';
    } else {
      assert (body + "\n" + t)[1..] == body[1..] + "\n" + t;
      LineLenOf(body[1..], t);
    }
  }

  lemma {:induction false} BlockLenOf(body: string, t: string)
    requires PieceOk(Block(body))
    ensures BlockLen(body + "*/" + t) == |body| + 2
  {
    var all := body + "*/" + t;
    if body == "" {
      assert all[0] == '*' && all[1] == '/';
    } else {
      assert all[1..] == body[1..] + "*/" + t;
      assert all[0] == body[0] && all[1] == if |body| > 1 then body[1] else '*';
      BlockLenOf(body[1..], t);
    }
  }

  /** What a piece adds to the statement's buffer. */
  function Blank1(p: Piece): string { if p.Blank? then [p.c] else "" }

  function Blanks(gap: seq<Piece>): string {
    if gap == [] then "" else Blank1(gap[0]) + Blanks(gap[1..])
  }

  lemma Assoc(a: string, b: string, c: string)
    ensures (a + b) + c == a + (b + c)
  {
  }

  /** Reading a whole first token. */
  lemma TokenStep(s: string, t: string, buf: string, n: nat, k: Token)
    requires 0 < n <= |s| && FirstToken(s + t) == (n, k) && !k.Semi?
    ensures StatementsFrom(s + t, buf)
         == StatementsFrom(s[n..] + t, if k.Text? then buf + k.text else buf)
  {
    assert (s + t)[n..] == s[n..] + t;
  }

  lemma SemiStep(t: string, buf: string)
    requires t != "" && t[0] == ';'
    ensures StatementsFrom(t, buf) == Emit(buf) + StatementsFrom(t[1..], "")
  {
    hide Emit;
  }

  lemma BlockToken(body: string, t: string)
    requires PieceOk(Block(body))
    ensures FirstToken(PieceText(Block(body)) + t) == (|body| + 4, Comment)
  {
    var all := "/*" + (body + "*/" + t);
    Assoc("/*", body + "*/", t);
    Assoc("/*", body, "*/");
    BlockLenOf(body, t);
    assert all[2..] == body + "*/" + t;
  }

  lemma BlankToken(c: char, t: string)
    requires c in BLANKS
    ensures FirstToken([c] + t) == (1, Text([c]))
  {
    assert ([c] + t)[..1] == [c];
  }

  lemma PieceToken(p: Piece, t: string)
    requires PieceOk(p)
    ensures FirstToken(PieceText(p) + t) == (|PieceText(p)|, if p.Blank? then Text(Blank1(p)) else Comment)
  {
    hide FirstToken;
    match p
    case Blank(c) => BlankToken(c, t);
    case Line(dashes, body) => LineToken(dashes, body, t);
    case Block(body) => BlockToken(body, t);
  }

  lemma PieceStep(p: Piece, t: string, buf: string)
    requires PieceOk(p)
    ensures StatementsFrom(PieceText(p) + t, buf) == StatementsFrom(t, buf + Blank1(p))
  {
    hide StatementsFrom, FirstToken, PieceOk, PieceText;
    var s := PieceText(p);
    PieceToken(p, t);
    TokenStep(s, t, buf, |s|, if p.Blank? then Text(Blank1(p)) else Comment);
    assert s[|s|..] + t == t;
    assert !p.Blank? ==> buf + Blank1(p) == buf;
  }

  lemma LineToken(dashes: bool, body: string, t: string)
    requires PieceOk(Line(dashes, body))
    ensures FirstToken(PieceText(Line(dashes, body)) + t) == (|PieceText(Line(dashes, body))|, Comment)
  {
    var head := (if dashes then "--" else "#") + body;
    var all := head + "\n" + t;
    assert PieceText(Line(dashes, body)) + t == all;
    LineLenOf(head, t);
    if dashes && body == "" {
      assert all[2] == '\n';
    } else if dashes {
      assert all[2] == body[0] == ("--" + body)[2];
    }
  }

  lemma {:induction false} BlanksAreSpace(gap: seq<Piece>)
    requires GapOk(gap)
    ensures AllSpace(Blanks(gap))
  {
    if gap != [] {
      assert PieceOk(gap[0]);
      if gap[0].Blank? { SpaceIsBlank(gap[0].c); }
      BlanksAreSpace(gap[1..]);
    }
  }

  lemma {:induction false} GapStep(gap: seq<Piece>, t: string, buf: string)
    requires GapOk(gap)
    ensures StatementsFrom(GapText(gap) + t, buf) == StatementsFrom(t, buf + Blanks(gap))
    ensures AllSpace(Blanks(gap))
  {
    BlanksAreSpace(gap);
    hide StatementsFrom, PieceText, PieceOk, IsSpace, AllSpace, Blank1;
    if gap == [] {
      assert "" + t == t && buf + "" == buf;
    } else {
      var p, rest := gap[0], gap[1..];
      Assoc(PieceText(p), GapText(rest), t);
      PieceStep(p, GapText(rest) + t, buf);
      GapStep(rest, t, buf + Blank1(p));
      Assoc(buf, Blank1(p), Blanks(rest));
    }
  }

  /** The first token of a closed statement, and what is left of it. */
  lemma ClosedStep(s: string, t: string) returns (n: nat)
    requires s != "" && Closed(s) && t != "" && t[0] == ';'
    ensures 0 < n <= |s| && FirstToken(s + t) == (n, Text(s[..n])) && Closed(s[n..])
  {
    n := if s[0] == '\'' then 1 + SingleLen(s[1..]) else if s[0] == '`' then 1 + BacktickLen(s[1..]) else 1;
    assert (s + t)[..n] == s[..n];
    assert (s + t)[1..] == s[1..] + t;
    if s[0] == '\'' {
      SingleLenStays(s[1..], t);
    } else if s[0] == '`' {
      BacktickLenStays(s[1..], t);
    }
  }

  lemma {:induction false} StmtStep(s: string, t: string, buf: string)
    requires Closed(s) && t != "" && t[0] == ';'
    ensures StatementsFrom(s + t, buf) == Emit(buf + s) + StatementsFrom(t[1..], "")
    decreases |s|
  {
    hide StatementsFrom, Emit, FirstToken, Closed;
    if s == "" {
      assert s + t == t && buf + "" == buf;
      SemiStep(t, buf);
    } else {
      var n := ClosedStep(s, t);
      TokenStep(s, t, buf, n, Text(s[..n]));
      StmtStep(s[n..], t, buf + s[..n]);
      assert buf + s[..n] + s[n..] == buf + s;
    }
  }

  /** One statement with the gap before it and the ';' after it. */
  lemma EntryStep(gap: seq<Piece>, stmt: string, t: string)
    requires GapOk(gap) && Clean(stmt) && t != "" && t[0] == ';'
    ensures StatementsFrom(GapText(gap) + (stmt + t), "") == [stmt] + StatementsFrom(t[1..], "")
  {
    hide *;
    GapStep(gap, stmt + t, "");
    assert "" + Blanks(gap) == Blanks(gap);
    CleanIsClosed(stmt);
    StmtStep(stmt, t, Blanks(gap));
    EmitAfterBlanks(Blanks(gap), stmt);
  }

  /** A file of clean statements, each ended by ';', with blanks and comments between them,
      splits into exactly those statements. */
  lemma {:induction false} SplitRoundTrip(file: seq<Entry>, end: seq<Piece>)
    requires FileOk(file) && GapOk(end)
    ensures Statements(FileText(file, end)) == StatementsOf(file)
  {
    hide StatementsFrom, Clean, GapOk, GapText;
    if file == [] {
      GapStep(end, "", "");
      assert GapText(end) + "" == GapText(end);
      LastGap(Blanks(end));
    } else {
      var e, t := file[0], ";" + FileText(file[1..], end);
      assert FileText(file, end) == GapText(e.gap) + (e.stmt + t);
      EntryStep(e.gap, e.stmt, t);
      assert t[1..] == FileText(file[1..], end);
      SplitRoundTrip(file[1..], end);
    }
  }

  lemma CleanIsClosed(stmt: string)
    requires Clean(stmt)
    ensures stmt != "" && Trimmed(stmt) && Closed(stmt)
  {
  }

  lemma LastGap(blanks: string)
    requires AllSpace(blanks)
    ensures StatementsFrom("", "" + blanks) == []
  {
    EmitAfterBlanks(blanks, "");
    assert "" + blanks == blanks == blanks + "";
  }
}
