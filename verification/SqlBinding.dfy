/** Named parameters of a read-only SQL statement (server/dataflow-sql-binding.ts): an index-driven
    scanner that must leave quoted text and comments alone, proved against a grammar of tokens. */
module SqlBinding {
  import opened Workflow

  datatype Value = Null | Text(text: string) | Flag(on: bool) | Number(number: real) | Moment(at: int)
                 | NotFinite | NoMoment | Undefined | Object

  datatype SqlError = UnclosedQuote | ExecutableComment | UnclosedComment | Missing(name: string)
                    | NotScalar(name: string) | BarePlaceholder | NotReadOnly | Locking

  datatype Token = Quoted(text: string) | Comment(text: string) | Param(name: string) | Mark | Plain(c: char)

  // ----- characters

  predicate IsQuote(c: char) { c == '\'' || c == '\"' || c == '`' }

  predicate IsNewline(c: char) { c == '\r' || c == '\n' }

  /** ECMAScript white space and line terminators. */
  predicate IsSpace(c: char) {
    || ('\U{9}' <= c <= '\U{D}') || c == ' ' || c == '\U{A0}' || c == '\U{1680}' || ('\U{2000}' <= c <= '\U{200A}')
    || c == '\U{2028}' || c == '\U{2029}' || c == '\U{202F}' || c == '\U{205F}' || c == '\U{3000}' || c == '\U{FEFF}'
  }

  predicate IsNameStart(c: char) { 'A' <= c <= 'Z' || 'a' <= c <= 'z' || c == '_' }

  predicate IsNameChar(c: char) { IsNameStart(c) || '0' <= c <= '9' }

  predicate IsScalar(v: Value) { v.Null? || v.Text? || v.Flag? || v.Number? || v.Moment? }

  // ----- the grammar

  /** Whether a backslash escapes inside a literal delimited by `q`. */
  predicate Escapes(q: char, esc: bool) { esc && q != '`' }

  /** What may stand between two quotes `q`: escaped characters, doubled quotes, anything else. */
  predicate IsBody(b: string, q: char, esc: bool) {
    if b == [] then true
    else if b[0] == '\\' && esc && q != '`' then |b| >= 2 && IsBody(b[2..], q, esc)
    else if b[0] == q then |b| >= 2 && b[1] == q && IsBody(b[2..], q, esc)
    else IsBody(b[1..], q, esc)
  }

  predicate IsLiteral(t: string, esc: bool) {
    |t| >= 2 && IsQuote(t[0]) && t[|t| - 1] == t[0] && IsBody(t[1..|t| - 1], t[0], esc)
  }

  predicate StartsLine(s: string) {
    s != [] && (s[0] == '#' || (|s| >= 2 && s[0] == '-' && s[1] == '-' && (|s| == 2 || IsSpace(s[2]))))
  }

  predicate StartsBlock(s: string) { |s| >= 2 && s[0] == '/' && s[1] == '*' }

  /** MySQL and MariaDB execute such comments. */
  predicate Executable(s: string) {
    StartsBlock(s) && |s| >= 3 && (s[2] == '!' || (|s| >= 4 && (s[2] == 'M' || s[2] == 'm') && s[3] == '!'))
  }

  predicate EndsBlockAt(s: string, i: nat) { i + 1 < |s| && s[i] == '*' && s[i + 1] == '/' }

  /** A comment up to its first end, not one of the executable ones. */
  predicate IsBlock(t: string) {
    && |t| >= 4 && t[..2] == "/*" && t[|t| - 2..] == "*/"
    && (forall i :: 2 <= i < |t| - 2 ==> !(t[i] == '*' && t[i + 1] == '/'))
    && t[2] != '!' && !((t[2] == 'M' || t[2] == 'm') && t[3] == '!')
  }

  predicate NoNewline(t: string) { forall i :: 0 <= i < |t| ==> !IsNewline(t[i]) }

  predicate IsName(t: string) {
    t != [] && IsNameStart(t[0]) && forall i :: 0 <= i < |t| ==> IsNameChar(t[i])
  }

  predicate Heads(after: string, q: char) { after != [] && after[0] == q }

  /** Token `t` may stand in front of the text `after`: it is well formed and taken at full length. */
  predicate Fits(t: Token, after: string, esc: bool) {
    match t
    case Quoted(text) => IsLiteral(text, esc) && !Heads(after, text[0])
    case Comment(text) =>
      || (StartsLine(text + after) && text != [] && NoNewline(text) && (after == [] || IsNewline(after[0])))
      || IsBlock(text)
    case Param(name) => IsName(name) && (after == [] || !IsNameChar(after[0]))
    case Mark => true
    case Plain(c) =>
      && !IsQuote(c) && c != '?' && !StartsLine([c] + after) && !StartsBlock([c] + after)
      && !(c == ':' && after != [] && IsNameStart(after[0]))
  }

  function Source(t: Token): string {
    match t
    case Quoted(text) => text
    case Comment(text) => text
    case Param(name) => ":" + name
    case Mark => "?"
    case Plain(c) => [c]
  }

  function SourceText(ts: seq<Token>): string {
    if ts == [] then [] else Source(ts[0]) + SourceText(ts[1..])
  }

  /** `ts` is a tokenisation of its text. */
  predicate Lexes(ts: seq<Token>, esc: bool) {
    ts == [] || (Fits(ts[0], SourceText(ts[1..]), esc) && Lexes(ts[1..], esc))
  }

  // ----- what the scanner writes

  function Marked(t: Token): Token {
    if t.Param? then Mark else t
  }

  function AllMarked(ts: seq<Token>): seq<Token> {
    if ts == [] then [] else [Marked(ts[0])] + AllMarked(ts[1..])
  }

  function CodeOf(t: Token): string {
    if t.Quoted? || t.Comment? then " " else Source(Marked(t))
  }

  function Code(ts: seq<Token>): string {
    if ts == [] then [] else CodeOf(ts[0]) + Code(ts[1..])
  }

  function Names(ts: seq<Token>): seq<string> {
    if ts == [] then [] else (if ts[0].Param? then [ts[0].name] else []) + Names(ts[1..])
  }

  function Values(ts: seq<Token>, parameters: map<string, Value>): seq<Value> {
    if ts == [] then []
    else (if ts[0].Param? && ts[0].name in parameters then [parameters[ts[0].name]] else []) + Values(ts[1..], parameters)
  }

  /** What one token does to the statement's acceptance. */
  function Problem(t: Token, parameters: map<string, Value>): Option<SqlError> {
    match t
    case Param(name) =>
      if name !in parameters then Some(Missing(name))
      else if !IsScalar(parameters[name]) then Some(NotScalar(name)) else None
    case Mark => Some(BarePlaceholder)
    case _ => None
  }

  predicate Bindable(ts: seq<Token>, parameters: map<string, Value>) {
    forall i :: 0 <= i < |ts| ==> Problem(ts[i], parameters).None?
  }

  // ----- the scanner's steps

  /** Characters up to and including the closing quote, after the opening one. */
  function Close(s: string, q: char, esc: bool): (r: Option<nat>)
    ensures r.Some? ==> 1 <= r.value <= |s|
  {
    if s == [] then None
    else if s[0] == '\\' && Escapes(q, esc) then if |s| < 2 then None else Shift(Close(s[2..], q, esc), 2)
    else if s[0] == q then if |s| >= 2 && s[1] == q then Shift(Close(s[2..], q, esc), 2) else Some(1)
    else Shift(Close(s[1..], q, esc), 1)
  }

  function Shift(r: Option<nat>, d: nat): Option<nat> {
    match r case None => None case Some(n) => Some(n + d)
  }

  function LineEnd(s: string): (n: nat)
    ensures n <= |s| && (forall i :: 0 <= i < n ==> !IsNewline(s[i])) && (n < |s| ==> IsNewline(s[n]))
  {
    if s == [] || IsNewline(s[0]) then 0 else 1 + LineEnd(s[1..])
  }

  /** The first block end at or after `from`. */
  function BlockEnd(s: string, from: nat): (r: Option<nat>)
    requires from <= |s|
    ensures r.Some? ==> from <= r.value && EndsBlockAt(s, r.value)
    ensures forall i {:trigger EndsBlockAt(s, i)} :: from <= i && EndsBlockAt(s, i) ==> r.Some? && r.value <= i
    decreases |s| - from
  {
    if EndsBlockAt(s, from) then Some(from) else if from >= |s| then None else BlockEnd(s, from + 1)
  }

  function NameLength(s: string): (n: nat)
    ensures n <= |s| && (forall i :: 0 <= i < n ==> IsNameChar(s[i])) && (n < |s| ==> !IsNameChar(s[n]))
  {
    if s == [] || !IsNameChar(s[0]) then 0 else 1 + NameLength(s[1..])
  }

  /** The token at the head of `s`, or the error raised there. */
  function Next(s: string, esc: bool): (r: Result<Token, SqlError>)
    requires s != []
    ensures r.Ok? ==> 1 <= |Source(r.value)| <= |s|
  {
    if IsQuote(s[0]) then
      (match Close(s[1..], s[0], esc)
       case None => Err(UnclosedQuote)
       case Some(n) => Ok(Quoted(s[..n + 1])))
    else if StartsLine(s) then
      var n := LineEnd(s);
      Ok(Comment(s[..n]))
    else if StartsBlock(s) then
      if Executable(s) then Err(ExecutableComment)
      else
        (match BlockEnd(s, 2)
         case None => Err(UnclosedComment)
         case Some(n) => Ok(Comment(s[..n + 2])))
    else if s[0] == ':' && |s| >= 2 && IsNameStart(s[1]) then Ok(Param(s[1..1 + NameLength(s[1..])]))
    else if s[0] == '?' then Ok(Mark)
    else Ok(Plain(s[0]))
  }

  /** The whole statement, token by token. */
  function Bind(s: string, parameters: map<string, Value>, esc: bool): Result<seq<Token>, SqlError>
    decreases |s|
  {
    if s == [] then Ok([])
    else
      match Next(s, esc)
      case Err(e) => Err(e)
      case Ok(t) =>
        if Problem(t, parameters).Some? then Err(Problem(t, parameters).value)
        else Prepend([t], Bind(s[|Source(t)|..], parameters, esc))
  }

  function Prepend(ts: seq<Token>, r: Result<seq<Token>, SqlError>): Result<seq<Token>, SqlError> {
    match r case Ok(more) => Ok(ts + more) case Err(e) => Err(e)
  }

  // ----- the steps agree with the grammar

  /** `n` characters, the last one the closing quote, end a literal taken at full length. */
  predicate EndsLiteral(s: string, q: char, esc: bool, n: nat) {
    1 <= n <= |s| && s[n - 1] == q && IsBody(s[..n - 1], q, esc) && !Heads(s[n..], q)
  }

  /** How many characters the body item at the head of `s` takes; none if the quote there closes. */
  function ItemSize(s: string, q: char, esc: bool): nat
    requires s != []
  {
    if s[0] == '\\' && Escapes(q, esc) then 2
    else if s[0] == q then if |s| >= 2 && s[1] == q then 2 else 0
    else 1
  }

  /** One body item more in front of a literal's end. */
  lemma EndsAfterItem(s: string, q: char, esc: bool, n: nat)
    requires q != '\\' && s != [] && 0 < ItemSize(s, q, esc) <= |s|
    ensures var d := ItemSize(s, q, esc); EndsLiteral(s, q, esc, n) <==> n > d && EndsLiteral(s[d..], q, esc, n - d)
  {
    var d := ItemSize(s, q, esc);
    if d < n <= |s| {
      BodyAfterItem(s, q, esc, n - 1);
      assert s[d..][n - d..] == s[n..];
      hide IsBody;
    }
  }

  lemma BodyAfterItem(s: string, q: char, esc: bool, k: nat)
    requires q != '\\' && s != [] && 0 < ItemSize(s, q, esc) <= k <= |s|
    ensures var d := ItemSize(s, q, esc); IsBody(s[..k], q, esc) <==> IsBody(s[d..][..k - d], q, esc)
  {
    var d := ItemSize(s, q, esc);
    assert s[..k][d..] == s[d..][..k - d];
  }

  /** `Close` finds exactly the end of a literal taken at full length. */
  lemma {:induction false} CloseIsLiteralEnd(s: string, q: char, esc: bool, n: nat)
    requires q != '\\'
    ensures Close(s, q, esc) == Some(n) <==> EndsLiteral(s, q, esc, n)
    decreases |s|
  {
    if s != [] {
      var d := ItemSize(s, q, esc);
      if d == 0 {
        ClosesHere(s, q, esc, n);
      } else if d <= |s| {
        EndsAfterItem(s, q, esc, n);
        if n > d { CloseIsLiteralEnd(s[d..], q, esc, n - d); }
        hide EndsLiteral;
      }
    }
  }

  lemma ClosesHere(s: string, q: char, esc: bool, n: nat)
    requires q != '\\' && s != [] && ItemSize(s, q, esc) == 0
    ensures EndsLiteral(s, q, esc, n) <==> n == 1
  {
  }

  /** The scanner's choice is a token that fits what follows it ... */
  lemma NextFits(s: string, esc: bool)
    requires s != [] && Next(s, esc).Ok?
    ensures var t := Next(s, esc).value; var n := |Source(t)|;
            s == Source(t) + s[n..] && Fits(t, s[n..], esc)
  {
    var t := Next(s, esc).value;
    var n := |Source(t)|;
    assert s == s[..n] + s[n..];
    if IsQuote(s[0]) {
      QuotedFits(s, esc, n - 1);
    } else if StartsLine(s) {
    } else if StartsBlock(s) {
      BlockPrefix(s, n - 2);
    } else if t.Param? {
      assert s[1..][..n - 1] == t.name;
      assert s == [s[0]] + s[1..];
      assert forall i :: 0 <= i < |t.name| ==> t.name[i] == s[1..][i];
    } else {
      assert s == [s[0]] + s[1..];
    }
  }

  lemma BlockPrefix(s: string, n: nat)
    requires StartsBlock(s) && BlockEnd(s, 2) == Some(n) && !Executable(s)
    ensures IsBlock(s[..n + 2])
  {
    var t := s[..n + 2];
    assert EndsBlockAt(s, n) && t[..2] == "/*" && t[|t| - 2..] == "*/";
    forall i | 2 <= i < n ensures !(t[i] == '*' && t[i + 1] == '/') { assert !EndsBlockAt(s, i); }
  }

  /** ... and whichever token fits at the head of a text is the scanner's choice. */
  lemma FitsIsNext(t: Token, after: string, esc: bool)
    requires Fits(t, after, esc)
    ensures Source(t) != [] && Next(Source(t) + after, esc) == Ok(t)
  {
    hide *;
    match t
    case Quoted(text) => QuotedIsNext(text, after, esc);
    case Comment(text) => CommentIsNext(text, after, esc);
    case Param(name) => ParamIsNext(name, after, esc);
    case Mark => PlainIsNext('?', after, esc);
    case Plain(c) => PlainIsNext(c, after, esc);
  }

  lemma ParamIsNext(name: string, after: string, esc: bool)
    requires Fits(Param(name), after, esc)
    ensures Source(Param(name)) != [] && Next(Source(Param(name)) + after, esc) == Ok(Param(name))
  {
    var s := ":" + name + after;
    assert s[1..] == name + after && s[1] == name[0];
    NameTaken(name, after);
    assert s[1..1 + |name|] == name;
    hide NameLength, Close, LineEnd, BlockEnd, IsName;
    assert Source(Param(name)) + after == s;
  }

  lemma PlainIsNext(c: char, after: string, esc: bool)
    requires c == '?' || Fits(Plain(c), after, esc)
    ensures Source(Plain(c)) != []
    ensures Fits(Plain(c), after, esc) ==> Next(Source(Plain(c)) + after, esc) == Ok(Plain(c))
    ensures c == '?' ==> Source(Plain(c)) == Source(Mark) && Next(Source(Mark) + after, esc) == Ok(Mark)
  {
    hide NameLength, Close, LineEnd, BlockEnd, Executable;
    var s := [c] + after;
    assert Source(Plain(c)) + after == s;
  }

  lemma QuotedIsNext(text: string, after: string, esc: bool)
    requires Fits(Quoted(text), after, esc)
    ensures Source(Quoted(text)) != [] && Next(Source(Quoted(text)) + after, esc) == Ok(Quoted(text))
  {
    var n, s := |text| - 1, text + after;
    hide IsBody, Close, LineEnd, BlockEnd, Executable, StartsLine;
    assert s[1..] == text[1..n] + [text[n]] + after;
    assert s[1..][..n - 1] == text[1..n] && s[1..][n..] == after;
    CloseIsLiteralEnd(s[1..], s[0], esc, n);
    assert s[..n + 1] == text;
  }

  lemma QuotedFits(s: string, esc: bool, n: nat)
    requires s != [] && IsQuote(s[0]) && Close(s[1..], s[0], esc) == Some(n)
    ensures IsLiteral(s[..n + 1], esc) && !Heads(s[n + 1..], s[0])
  {
    hide IsBody, Close;
    CloseIsLiteralEnd(s[1..], s[0], esc, n);
    assert s[..n + 1][1..n] == s[1..][..n - 1];
    assert s[1..][n..] == s[n + 1..];
  }

  lemma {:induction false} NameTaken(name: string, after: string)
    requires (forall i :: 0 <= i < |name| ==> IsNameChar(name[i])) && (after == [] || !IsNameChar(after[0]))
    ensures NameLength(name + after) == |name|
  {
    if name == [] {
      assert name + after == after;
    } else {
      NameTaken(name[1..], after);
      assert (name + after)[1..] == name[1..] + after;
    }
  }

  lemma {:induction false} LineTaken(text: string, after: string)
    requires NoNewline(text) && (after == [] || IsNewline(after[0]))
    ensures LineEnd(text + after) == |text|
  {
    if text == [] {
      assert text + after == after;
    } else {
      LineTaken(text[1..], after);
      assert (text + after)[1..] == text[1..] + after;
    }
  }

  lemma CommentIsNext(text: string, after: string, esc: bool)
    requires Fits(Comment(text), after, esc)
    ensures Source(Comment(text)) != [] && Next(Source(Comment(text)) + after, esc) == Ok(Comment(text))
  {
    var s := text + after;
    assert s[..|text|] == text;
    if StartsLine(s) && NoNewline(text) && (after == [] || IsNewline(after[0])) {
      LineTaken(text, after);
    } else {
      var n := |text| - 2;
      assert text[..2] == "/*" && text[n..] == "*/" && text[n..][0] == text[n] && text[n..][1] == text[n + 1];
      assert EndsBlockAt(s, n);
      assert !Executable(s);
      assert BlockEnd(s, 2).Some?;
      var m := BlockEnd(s, 2).value;
      assert forall i :: 0 <= i < |text| ==> s[i] == text[i];
    }
  }

  lemma SourceNotEmpty(ts: seq<Token>, esc: bool)
    requires Lexes(ts, esc) && ts != []
    ensures SourceText(ts) != [] && SourceText(ts) == Source(ts[0]) + SourceText(ts[1..]) && Source(ts[0]) != []
  {
    FitsIsNext(ts[0], SourceText(ts[1..]), esc);
  }

  /** A text has at most one tokenisation. */
  lemma {:induction false} TokensUnique(a: seq<Token>, b: seq<Token>, esc: bool)
    requires Lexes(a, esc) && Lexes(b, esc) && SourceText(a) == SourceText(b)
    ensures a == b
  {
    if a != [] { SourceNotEmpty(a, esc); }
    if b != [] { SourceNotEmpty(b, esc); }
    if a != [] && b != [] {
      FitsIsNext(a[0], SourceText(a[1..]), esc);
      FitsIsNext(b[0], SourceText(b[1..]), esc);
      var n := |Source(a[0])|;
      assert SourceText(a[1..]) == SourceText(a)[n..] && SourceText(b[1..]) == SourceText(b)[n..];
      TokensUnique(a[1..], b[1..], esc);
    }
  }

  /** Scanning succeeds exactly on the texts that have a tokenisation without bare placeholders
      whose parameters are all given as scalars, and then returns that tokenisation. */
  lemma BindIff(s: string, parameters: map<string, Value>, esc: bool, ts: seq<Token>)
    ensures Bind(s, parameters, esc) == Ok(ts) <==> SourceText(ts) == s && Lexes(ts, esc) && Bindable(ts, parameters)
  {
    if Bind(s, parameters, esc) == Ok(ts) { BindSound(s, parameters, esc); }
    if SourceText(ts) == s && Lexes(ts, esc) && Bindable(ts, parameters) { BindComplete(ts, parameters, esc); }
  }

  lemma {:induction false} BindSound(s: string, parameters: map<string, Value>, esc: bool)
    requires Bind(s, parameters, esc).Ok?
    ensures var ts := Bind(s, parameters, esc).value;
            SourceText(ts) == s && Lexes(ts, esc) && Bindable(ts, parameters)
    decreases |s|
  {
    if s != [] {
      var t := Next(s, esc).value;
      NextFits(s, esc);
      BindSound(s[|Source(t)|..], parameters, esc);
      var more := Bind(s[|Source(t)|..], parameters, esc).value;
      assert ([t] + more)[1..] == more;
      hide Next, Fits, Problem;
      assert forall i :: 0 <= i < |[t] + more| ==> ([t] + more)[i] == if i == 0 then t else more[i - 1];
    }
  }

  lemma {:induction false} BindComplete(ts: seq<Token>, parameters: map<string, Value>, esc: bool)
    requires Lexes(ts, esc) && Bindable(ts, parameters)
    ensures Bind(SourceText(ts), parameters, esc) == Ok(ts)
  {
    hide Next, Fits, Problem, Source;
    if ts != [] {
      var s := SourceText(ts);
      SourceNotEmpty(ts, esc);
      FitsIsNext(ts[0], SourceText(ts[1..]), esc);
      assert Bindable(ts[1..], parameters);
      BindComplete(ts[1..], parameters, esc);
      assert Problem(ts[0], parameters).None?;
      assert s[|Source(ts[0])|..] == SourceText(ts[1..]);
      assert ts == [ts[0]] + ts[1..];
    }
  }

  // ----- rescanning what was written

  /** Characters the scanner's look-ahead cannot tell apart: a parameter's colon and its placeholder. */
  predicate SameLook(a: string, b: string) {
    (a == [] <==> b == []) && (a != [] ==> a[0] == b[0] || (a[0] == ':' && b[0] == '?'))
  }

  lemma MarkedLooksSame(ts: seq<Token>, esc: bool)
    requires Lexes(ts, esc)
    ensures SameLook(SourceText(ts), SourceText(AllMarked(ts)))
  {
    if ts != [] { SourceNotEmpty(ts, esc); }
  }

  /** Replacing parameters by placeholders leaves every other token where the scanner finds it again. */
  lemma {:induction false} MarkedLexes(ts: seq<Token>, esc: bool)
    requires Lexes(ts, esc)
    ensures Lexes(AllMarked(ts), esc)
  {
    if ts != [] {
      MarkedLexes(ts[1..], esc);
      MarkedFits(ts, esc);
    }
  }

  lemma MarkedFits(ts: seq<Token>, esc: bool)
    requires ts != [] && Lexes(ts, esc)
    ensures Fits(Marked(ts[0]), SourceText(AllMarked(ts[1..])), esc)
  {
    var t, rest := ts[0], ts[1..];
    var a, b := SourceText(rest), SourceText(AllMarked(rest));
    MarkedLooksSame(rest, esc);
    match t
    case Comment(text) =>
      if StartsLine(text + a) && NoNewline(text) && (a == [] || IsNewline(a[0])) { LineStartKept(text, a, b); }
    case Plain(c) =>
      if c == '-' && b != [] && b[0] == '-' {
        SourceNotEmpty(rest, esc);
        DashFollowed(rest, esc);
      }
    case _ =>
  }

  /** Whether a line comment starts depends on three characters, which the rewriting cannot change
      when the comment's own text is not empty. */
  lemma LineStartKept(text: string, a: string, b: string)
    requires text != [] && StartsLine(text + a) && NoNewline(text) && (a == [] || IsNewline(a[0])) && SameLook(a, b)
    ensures StartsLine(text + b)
  {
    assert text[0] == (text + a)[0] == (text + b)[0];
    assert |text| >= 2 ==> text[1] == (text + a)[1] == (text + b)[1];
    assert |text| >= 3 ==> text[2] == (text + a)[2] == (text + b)[2];
    assert |text| == 2 && a != [] ==> (text + b)[2] == b[0];
    assert |text| == 1 && a != [] ==> (text + a)[1] == a[0];
  }

  /** A plain dash followed by a dash: the character after the two looks the same in both texts. */
  lemma DashFollowed(rest: seq<Token>, esc: bool)
    requires rest != [] && Lexes(rest, esc) && SourceText(AllMarked(rest))[..1] == "-"
    ensures StartsLine("-" + SourceText(AllMarked(rest))) ==> StartsLine("-" + SourceText(rest))
  {
    var t, a, b := rest[0], SourceText(rest), SourceText(AllMarked(rest));
    SourceNotEmpty(rest, esc);
    MarkedLooksSame(rest[1..], esc);
    assert Source(Marked(t))[0] == '-';
    assert t.Plain? || t.Comment?;
  }

  /** Filling the placeholders of a token list with parameter names, in order. */
  function Fill(ts: seq<Token>, names: seq<string>): seq<Token>
    decreases |ts|
  {
    if ts == [] then []
    else if ts[0].Mark? && names != [] then [Param(names[0])] + Fill(ts[1..], names[1..])
    else [ts[0]] + Fill(ts[1..], names)
  }

  lemma {:induction false} FillUndoesMarking(ts: seq<Token>)
    requires Mark !in ts
    ensures Fill(AllMarked(ts), Names(ts)) == ts
  {
    if ts != [] {
      FillUndoesMarking(ts[1..]);
      assert AllMarked(ts)[1..] == AllMarked(ts[1..]);
      assert ts[0] != Mark && ts == [ts[0]] + ts[1..];
      assert Names(ts) == if ts[0].Param? then [ts[0].name] + Names(ts[1..]) else Names(ts[1..]);
    }
  }

  /** Putting the parameter names back where the written text has placeholders restores the
      statement, whichever way that text is tokenised. */
  lemma OriginalRestored(statement: string, parameters: map<string, Value>, esc: bool, es: seq<Token>)
    requires Bind(statement, parameters, esc).Ok?
    requires Lexes(es, esc) && SourceText(es) == SourceText(AllMarked(Bind(statement, parameters, esc).value))
    ensures SourceText(Fill(es, Names(Bind(statement, parameters, esc).value))) == statement
  {
    var ts := Bind(statement, parameters, esc).value;
    BindIff(statement, parameters, esc, ts);
    MarkedLexes(ts, esc);
    TokensUnique(es, AllMarked(ts), esc);
    assert Mark !in ts by {
      forall i | 0 <= i < |ts| ensures ts[i] != Mark { assert Problem(ts[i], parameters).None?; }
    }
    FillUndoesMarking(ts);
  }

  // ----- trimming

  function TrimStart(s: string): string {
    if s != [] && IsSpace(s[0]) then TrimStart(s[1..]) else s
  }

  function TrimEnd(s: string): string {
    if s != [] && IsSpace(s[|s| - 1]) then TrimEnd(s[..|s| - 1]) else s
  }

  function Trim(s: string): string {
    TrimEnd(TrimStart(s))
  }

  /** Trimming takes all white space off both ends and nothing else. */
  lemma {:induction false} TrimIsExact(s: string) returns (a: nat)
    ensures a + |Trim(s)| <= |s| && Trim(s) == s[a..a + |Trim(s)|]
    ensures forall i :: 0 <= i < a || a + |Trim(s)| <= i < |s| ==> IsSpace(s[i])
    ensures Trim(s) != [] ==> !IsSpace(Trim(s)[0]) && !IsSpace(Trim(s)[|Trim(s)| - 1])
  {
    a := TrimStartIsExact(s);
    TrimEndIsExact(TrimStart(s));
    hide TrimStart, TrimEnd;
  }

  lemma {:induction false} TrimStartIsExact(s: string) returns (a: nat)
    ensures a <= |s| && TrimStart(s) == s[a..] && (forall i :: 0 <= i < a ==> IsSpace(s[i]))
    ensures a < |s| ==> !IsSpace(s[a])
  {
    a := 0;
    if s != [] && IsSpace(s[0]) {
      a := TrimStartIsExact(s[1..]);
      assert forall i :: 0 < i < |s| ==> s[i] == s[1..][i - 1];
      a := a + 1;
    }
  }

  lemma {:induction false} TrimEndIsExact(s: string)
    ensures |TrimEnd(s)| <= |s| && TrimEnd(s) == s[..|TrimEnd(s)|]
    ensures forall i :: |TrimEnd(s)| <= i < |s| ==> IsSpace(s[i])
    ensures TrimEnd(s) != [] ==> !IsSpace(TrimEnd(s)[|TrimEnd(s)| - 1])
  {
    if s != [] && IsSpace(s[|s| - 1]) { TrimEndIsExact(s[..|s| - 1]); }
  }

  /** The tokens a database acts on: everything but comments and white space. */
  function Significant(ts: seq<Token>): seq<Token> {
    if ts == [] then []
    else (if ts[0].Comment? || (ts[0].Plain? && IsSpace(ts[0].c)) then [] else [ts[0]]) + Significant(ts[1..])
  }

  predicate IsBlankToken(t: Token) {
    t.Plain? && IsSpace(t.c)
  }

  /** `e` is `t`, or the comment `t` without some white space at its end. */
  ghost predicate CutTo(t: Token, e: Token) {
    || e == t
    || (e.Comment? && t.Comment? && |e.text| <= |t.text| && e.text == t.text[..|e.text|] &&
        forall i :: |e.text| <= i < |t.text| ==> IsSpace(t.text[i]))
  }

  /** `es` lists the tokens of `ts` from position `a` on, comments and all; what is left out around
      them is blank, and only the last one may have been cut. */
  ghost predicate TrimmedAt(es: seq<Token>, ts: seq<Token>, a: nat) {
    && a + |es| <= |ts|
    && (forall i :: 0 <= i < a || a + |es| <= i < |ts| ==> IsBlankToken(ts[i]))
    && (forall i :: 0 <= i < |es| - 1 ==> es[i] == ts[a + i])
    && (es != [] ==> CutTo(ts[a + |es| - 1], es[|es| - 1]))
  }

  lemma {:induction false} TrimStartTokens(ts: seq<Token>, esc: bool) returns (a: nat)
    requires Lexes(ts, esc)
    ensures a <= |ts| && TrimmedAt(ts[a..], ts, a)
    ensures Lexes(ts[a..], esc) && SourceText(ts[a..]) == TrimStart(SourceText(ts)) && Significant(ts[a..]) == Significant(ts)
  {
    hide TrimmedAt;
    a := 0;
    assert ts[0..] == ts;
    TrimmedNothing(ts);
    if ts != [] && IsSpace(SourceText(ts)[0]) {
      SourceNotEmpty(ts, esc);
      assert ts[0].Plain?;
      assert SourceText(ts)[1..] == SourceText(ts[1..]);
      a := TrimStartTokens(ts[1..], esc);
      assert ts[a + 1..] == ts[1..][a..];
      BlankInFront(ts, a);
      a := a + 1;
    }
  }

  lemma TrimmedNothing(ts: seq<Token>)
    ensures TrimmedAt(ts, ts, 0)
  {
  }

  lemma BlankInFront(ts: seq<Token>, a: nat)
    requires ts != [] && IsBlankToken(ts[0]) && a < |ts| && TrimmedAt(ts[a + 1..], ts[1..], a)
    ensures TrimmedAt(ts[a + 1..], ts, a + 1)
  {
    assert forall i :: 0 < i < |ts| ==> ts[i] == ts[1..][i - 1];
  }

  lemma {:induction false} TrimEndTokens(ts: seq<Token>, esc: bool) returns (r: seq<Token>)
    requires Lexes(ts, esc)
    ensures TrimmedAt(r, ts, 0)
    ensures Lexes(r, esc) && SourceText(r) == TrimEnd(SourceText(ts)) && Significant(r) == Significant(ts)
    decreases |SourceText(ts)|
  {
    hide TrimmedAt;
    var s := SourceText(ts);
    r := ts;
    TrimmedNothing(ts);
    if s != [] && IsSpace(s[|s| - 1]) {
      var shorter := DropLastSpace(ts, esc);
      r := TrimEndTokens(shorter, esc);
      TrimmedTwice(r, shorter, ts);
    }
  }

  lemma TrimmedTwice(r: seq<Token>, s: seq<Token>, ts: seq<Token>)
    requires TrimmedAt(r, s, 0) && TrimmedAt(s, ts, 0)
    ensures TrimmedAt(r, ts, 0)
  {
    forall i | |r| <= i < |ts|
      ensures IsBlankToken(ts[i])
    {
      if i < |s| {
        assert IsBlankToken(s[i]);
      }
    }
  }

  /** Cutting one trailing space off the text shortens its last comment or removes its last token. */
  lemma {:induction false} DropLastSpace(ts: seq<Token>, esc: bool) returns (r: seq<Token>)
    requires Lexes(ts, esc) && SourceText(ts) != [] && IsSpace(SourceText(ts)[|SourceText(ts)| - 1])
    ensures TrimmedAt(r, ts, 0)
    ensures Lexes(r, esc) && SourceText(r) == SourceText(ts)[..|SourceText(ts)| - 1] && Significant(r) == Significant(ts)
  {
    hide Fits, Source, TrimmedAt, IsSpace;
    var rest, a := ts[1..], SourceText(ts[1..]);
    SourceNotEmpty(ts, esc);
    assert ts == [ts[0]] + rest;
    assert a != [] ==> IsSpace(a[|a| - 1]);
    if a == [] {
      if rest != [] { SourceNotEmpty(rest, esc); }
      assert ts == [ts[0]] && SourceText(ts) == Source(ts[0]);
      r := LastTokenCut(ts[0], esc);
    } else {
      hide SourceText, Lexes, Significant;
      var shorter := DropLastSpace(rest, esc);
      r := [ts[0]] + shorter;
      TrimmedBehind(ts[0], shorter, rest);
      ShorterBehind(ts[0], rest, shorter, esc);
    }
  }

  lemma ShorterBehind(t: Token, rest: seq<Token>, shorter: seq<Token>, esc: bool)
    requires Lexes([t] + rest, esc) && Lexes(shorter, esc)
    requires var a := SourceText(rest); a != [] && IsSpace(a[|a| - 1]) && SourceText(shorter) == a[..|a| - 1]
    ensures Lexes([t] + shorter, esc)
    ensures var s := SourceText([t] + rest); s != [] && SourceText([t] + shorter) == s[..|s| - 1]
  {
    hide Fits, Source, IsSpace;
    var a := SourceText(rest);
    assert ([t] + rest)[1..] == rest && ([t] + shorter)[1..] == shorter;
    FitsShorter(t, a, esc);
    assert Source(t) + a[..|a| - 1] == (Source(t) + a)[..|Source(t) + a| - 1];
  }

  lemma TrimmedBehind(t: Token, es: seq<Token>, ts: seq<Token>)
    requires TrimmedAt(es, ts, 0) && Significant(es) == Significant(ts)
    ensures TrimmedAt([t] + es, [t] + ts, 0) && Significant([t] + es) == Significant([t] + ts)
  {
    assert ([t] + es)[1..] == es && ([t] + ts)[1..] == ts;
  }

  lemma LastTokenCut(t: Token, esc: bool) returns (r: seq<Token>)
    requires Fits(t, [], esc) && Source(t) != [] && IsSpace(Source(t)[|Source(t)| - 1])
    ensures TrimmedAt(r, [t], 0)
    ensures Lexes(r, esc) && SourceText(r) == Source(t)[..|Source(t)| - 1] && Significant(r) == Significant([t])
  {
    assert t.Plain? || t.Comment?;
    if t.Plain? {
      r := [];
    } else {
      var text := t.text;
      var cut := text[..|text| - 1];
      assert text + [] == text && cut + [] == cut;
      assert StartsLine(text) && StartsLine(cut) && NoNewline(cut);
      r := [Comment(cut)];
      assert SourceText(r[1..]) == [] && SourceText(r) == cut;
    }
  }

  lemma FitsShorter(t: Token, a: string, esc: bool)
    requires Fits(t, a, esc) && a != [] && IsSpace(a[|a| - 1])
    ensures Fits(t, a[..|a| - 1], esc)
  {
    var b := a[..|a| - 1];
    match t
    case Comment(text) =>
      if StartsLine(text + a) && text != [] && NoNewline(text) && IsNewline(a[0]) {
        assert text[0] == (text + a)[0] == (text + b)[0];
        assert |text| >= 2 ==> text[1] == (text + a)[1] == (text + b)[1];
        assert |text| >= 3 ==> text[2] == (text + a)[2] == (text + b)[2];
        assert |text| == 2 && b != [] ==> (text + b)[2] == b[0];
        assert |text| == 1 ==> (text + a)[1] == a[0];
      }
    case _ =>
  }

  // ----- the read-only check

  function Lower(c: char): char {
    if 'A' <= c <= 'Z' then c + 32 as char else c
  }

  /** The word `w` stands at `i`, between word boundaries, in any case. */
  predicate WordAt(code: string, i: nat, w: string) {
    && i + |w| <= |code| && (forall k :: 0 <= k < |w| ==> Lower(code[i + k]) == w[k])
    && (i > 0 ==> !IsNameChar(code[i - 1])) && (i + |w| < |code| ==> !IsNameChar(code[i + |w|]))
  }

  function SpacesEnd(code: string, i: nat): (j: nat)
    requires i <= |code|
    ensures i <= j <= |code|
    decreases |code| - i
  {
    if i < |code| && IsSpace(code[i]) then SpacesEnd(code, i + 1) else i
  }

  predicate PhraseAt(code: string, i: nat, words: seq<string>)
    decreases |words|
  {
    words == [] ||
    (WordAt(code, i, words[0]) &&
     (|words| == 1 ||
      (var end := i + |words[0]|; SpacesEnd(code, end) > end && PhraseAt(code, SpacesEnd(code, end), words[1..]))))
  }

  predicate HasPhrase(code: string, words: seq<string>) {
    exists i :: 0 <= i <= |code| && PhraseAt(code, i, words)
  }

  const FORBIDDEN := ["insert", "update", "delete", "drop", "alter", "create", "grant", "revoke", "truncate", "call", "load"]

  predicate ReadOnly(code: string) {
    && WordAt(code, SpacesEnd(code, 0), "select") && ';' !in code
    && forall i :: 0 <= i < |FORBIDDEN| ==> !HasPhrase(code, [FORBIDDEN[i]])
  }

  predicate Locks(code: string) {
    || HasPhrase(code, ["into"]) || HasPhrase(code, ["for", "update"]) || HasPhrase(code, ["lock", "in", "share", "mode"])
  }

  // ----- what the check means for the statement's words

  /** Part of a word: literals, comments and parameters have none. */
  predicate IsLetter(t: Token) {
    t.Plain? && IsNameChar(t.c)
  }

  /** White space for the check: a literal and a comment count as such. */
  predicate IsGap(t: Token) {
    t.Quoted? || t.Comment? || IsBlankToken(t)
  }

  /** `t` is the lower-case letter `c`, in any case. */
  predicate IsLetterOf(t: Token, c: char) {
    t.Plain? && (t.c == c || ('a' <= c <= 'z' && t.c as int == c as int - 32))
  }

  /** The maximal run of name characters from token `i` on is the word `w`, in any case. */
  predicate IsRun(ts: seq<Token>, i: nat, w: string) {
    && w != [] && i + |w| <= |ts| && (forall k :: i <= k < i + |w| ==> IsLetter(ts[k]) && IsLetterOf(ts[k], w[k - i]))
    && (i > 0 ==> !IsLetter(ts[i - 1])) && (i + |w| < |ts| ==> !IsLetter(ts[i + |w|]))
  }

  predicate AllGaps(ts: seq<Token>, i: nat, j: nat) {
    i <= j <= |ts| && forall k :: i <= k < j ==> IsGap(ts[k])
  }

  /** The runs at the positions `at` are the words, with gaps alone from each to the next. */
  predicate Follow(ts: seq<Token>, at: seq<nat>, words: seq<string>) {
    && |at| == |words| && (forall k :: 0 <= k < |at| ==> IsRun(ts, at[k], words[k]))
    && (forall k :: 0 < k < |at| ==> at[k - 1] + |words[k - 1]| < at[k] && AllGaps(ts, at[k - 1] + |words[k - 1]|, at[k]))
  }

  /** The first word is "select" and nothing but gaps is in front of it. */
  ghost predicate Selects(ts: seq<Token>) {
    exists i :: AllGaps(ts, 0, i) && IsRun(ts, i, "select")
  }

  /** A single statement, and no run is one of the words that write. */
  ghost predicate NeverWrites(ts: seq<Token>) {
    && Plain(';') !in ts
    && forall i, w | w in {"insert", "update", "delete", "drop", "alter", "create", "grant", "revoke", "truncate", "call", "load"}
         :: !IsRun(ts, i, w)
  }

  ghost predicate NeverLocks(ts: seq<Token>) {
    forall at, words | words in {["into"], ["for", "update"], ["lock", "in", "share", "mode"]} :: !Follow(ts, at, words)
  }

  /** The check passes exactly the statements that begin with the word "select", hold no ';' and
      none of the words that write, and neither "into" nor a locking phrase; a word inside a longer
      identifier, a literal or a comment decides nothing. */
  lemma VerdictIff(ts: seq<Token>, parameters: map<string, Value>)
    ensures Verdict(ts, parameters) == Err(NotReadOnly) <==> !(Selects(ts) && NeverWrites(ts))
    ensures Verdict(ts, parameters) == Err(Locking) <==> Selects(ts) && NeverWrites(ts) && !NeverLocks(ts)
    ensures Verdict(ts, parameters).Ok? <==> Selects(ts) && NeverWrites(ts) && NeverLocks(ts)
    ensures Verdict(ts, parameters).Ok? ==> Verdict(ts, parameters).value == Prepared(Sent(ts), Values(ts, parameters))
  {
    SelectsIff(ts);
    WritesIff(ts);
    LocksIff(ts);
    hide Locks, Selects, NeverWrites, NeverLocks, WordAt, HasPhrase;
  }

  lemma {:induction false} CodeAt(ts: seq<Token>)
    ensures |Code(ts)| == |ts|
    ensures forall k :: 0 <= k < |ts| ==> Code(ts)[k] == if ts[k].Plain? then ts[k].c else if IsGap(ts[k]) then ' ' else '?'
  {
    if ts != [] { CodeAt(ts[1..]); }
  }

  predicate IsWord(w: string) {
    w != [] && forall k :: 0 <= k < |w| ==> 'a' <= w[k] <= 'z'
  }

  lemma WordIsRun(ts: seq<Token>, i: nat, w: string)
    requires IsWord(w)
    ensures WordAt(Code(ts), i, w) <==> IsRun(ts, i, w)
  {
    CodeAt(ts);
    hide Code;
    var code := Code(ts);
    assert forall k :: 0 <= k < |ts| ==> (IsLetter(ts[k]) <==> IsNameChar(code[k]));
    if WordAt(code, i, w) {
      forall k | i <= k < i + |w| ensures IsLetter(ts[k]) && IsLetterOf(ts[k], w[k - i]) {
        assert Lower(code[i + (k - i)]) == w[k - i];
      }
    }
    if IsRun(ts, i, w) {
      forall k | 0 <= k < |w| ensures Lower(code[i + k]) == w[k] {
        assert IsLetter(ts[i + k]) && IsLetterOf(ts[i + k], w[i + k - i]);
      }
    }
  }

  /** The blanks from `i` on end at the only place where a word can follow them. */
  lemma {:induction false} GapsEnd(ts: seq<Token>, i: nat)
    requires i <= |ts| == |Code(ts)|
    ensures AllGaps(ts, i, SpacesEnd(Code(ts), i))
    ensures forall j, w :: AllGaps(ts, i, j) && IsRun(ts, j, w) ==> j == SpacesEnd(Code(ts), i)
    decreases |ts| - i
  {
    CodeAt(ts);
    hide Code;
    if i < |ts| && IsSpace(Code(ts)[i]) {
      assert IsGap(ts[i]);
      GapsEnd(ts, i + 1);
      forall j: nat, w | AllGaps(ts, i, j) && IsRun(ts, j, w) ensures j == SpacesEnd(Code(ts), i) {
        assert IsLetter(ts[j]);
        assert j != i && AllGaps(ts, i + 1, j);
      }
    } else {
      assert i < |ts| ==> !IsGap(ts[i]);
    }
  }

  /** A phrase in the checked text is a row of runs with gaps between. */
  lemma {:induction false} PhraseIsFollow(ts: seq<Token>, i: nat, words: seq<string>) returns (at: seq<nat>)
    requires i <= |Code(ts)| && (forall k :: 0 <= k < |words| ==> IsWord(words[k])) && PhraseAt(Code(ts), i, words)
    ensures Follow(ts, at, words) && (words != [] ==> at[0] == i)
    decreases |words|
  {
    at := [];
    if words != [] {
      CodeAt(ts);
      hide Code, IsRun, WordAt;
      WordIsRun(ts, i, words[0]);
      at := [i];
      if |words| > 1 {
        var end := i + |words[0]|;
        assert end <= |ts| by { WordFits(Code(ts), i, words[0]); }
        GapsEnd(ts, end);
        var more := PhraseIsFollow(ts, SpacesEnd(Code(ts), end), words[1..]);
        assert AllGaps(ts, end, more[0]) && end < more[0];
        FollowMore(ts, i, more, words);
        at := [i] + more;
      }
    }
  }

  lemma FollowMore(ts: seq<Token>, i: nat, more: seq<nat>, words: seq<string>)
    requires |words| > 1 && IsRun(ts, i, words[0]) && Follow(ts, more, words[1..])
    requires i + |words[0]| < more[0] && AllGaps(ts, i + |words[0]|, more[0])
    ensures Follow(ts, [i] + more, words)
  {
    hide IsRun, AllGaps;
    var at := [i] + more;
    forall k | 0 <= k < |at| ensures IsRun(ts, at[k], words[k]) {
      if k > 0 { assert IsRun(ts, more[k - 1], words[1..][k - 1]); }
    }
    forall k | 0 < k < |at|
      ensures at[k - 1] + |words[k - 1]| < at[k] && AllGaps(ts, at[k - 1] + |words[k - 1]|, at[k]) {
      if k > 1 { assert AllGaps(ts, more[k - 2] + |words[1..][k - 2]|, more[k - 1]); }
    }
  }

  lemma WordFits(code: string, i: nat, w: string)
    requires WordAt(code, i, w)
    ensures i + |w| <= |code|
  {
  }

  lemma {:induction false} FollowIsPhrase(ts: seq<Token>, at: seq<nat>, words: seq<string>)
    requires words != [] && (forall k :: 0 <= k < |words| ==> IsWord(words[k])) && Follow(ts, at, words)
    ensures at != [] && at[0] <= |Code(ts)| && PhraseAt(Code(ts), at[0], words)
    decreases |words|
  {
    CodeAt(ts);
    WordIsRun(ts, at[0], words[0]);
    WordFits(Code(ts), at[0], words[0]);
    hide Code, IsRun, WordAt;
    if |words| > 1 {
      var end := at[0] + |words[0]|;
      GapsEnd(ts, end);
      assert IsRun(ts, at[1], words[1]);
      FollowIsPhrase(ts, at[1..], words[1..]);
    }
  }

  lemma HasPhraseIff(ts: seq<Token>, words: seq<string>)
    requires words != [] && forall k :: 0 <= k < |words| ==> IsWord(words[k])
    ensures HasPhrase(Code(ts), words) <==> exists at :: Follow(ts, at, words)
  {
    hide PhraseAt, Follow, Code;
    if HasPhrase(Code(ts), words) {
      var i :| 0 <= i <= |Code(ts)| && PhraseAt(Code(ts), i, words);
      var at := PhraseIsFollow(ts, i, words);
    }
    if at: seq<nat> :| Follow(ts, at, words) {
      FollowIsPhrase(ts, at, words);
      var i: nat := at[0];
      assert PhraseAt(Code(ts), i, words);
    }
  }

  lemma OneWord(ts: seq<Token>, w: string)
    ensures (exists at :: Follow(ts, at, [w])) <==> exists i :: IsRun(ts, i, w)
  {
    hide IsRun;
    if at :| Follow(ts, at, [w]) { assert IsRun(ts, at[0], [w][0]); }
    if i :| IsRun(ts, i, w) { assert Follow(ts, [i], [w]); }
  }

  lemma SelectsIff(ts: seq<Token>)
    ensures WordAt(Code(ts), SpacesEnd(Code(ts), 0), "select") <==> Selects(ts)
  {
    CodeAt(ts);
    GapsEnd(ts, 0);
    WordIsRun(ts, SpacesEnd(Code(ts), 0), "select");
    hide WordAt, IsRun, Code;
  }

  lemma WritesIff(ts: seq<Token>)
    ensures ';' !in Code(ts) && (forall i :: 0 <= i < |FORBIDDEN| ==> !HasPhrase(Code(ts), [FORBIDDEN[i]])) <==> NeverWrites(ts)
  {
    CodeAt(ts);
    assert ';' in Code(ts) <==> Plain(';') in ts by {
      if ';' in Code(ts) {
        var k :| 0 <= k < |ts| && Code(ts)[k] == ';';
        assert ts[k] == Plain(';');
      }
      if Plain(';') in ts {
        var k :| 0 <= k < |ts| && ts[k] == Plain(';');
        assert Code(ts)[k] == ';';
      }
    }
    hide HasPhrase, IsRun, Code;
    assert forall i :: 0 <= i < |FORBIDDEN| ==> IsWord(FORBIDDEN[i]);
    forall i | 0 <= i < |FORBIDDEN| ensures HasPhrase(Code(ts), [FORBIDDEN[i]]) <==> exists j :: IsRun(ts, j, FORBIDDEN[i]) {
      HasPhraseIff(ts, [FORBIDDEN[i]]);
      OneWord(ts, FORBIDDEN[i]);
    }
    assert forall w :: w in {"insert", "update", "delete", "drop", "alter", "create", "grant", "revoke", "truncate", "call", "load"} <==> w in FORBIDDEN;
    if forall i :: 0 <= i < |FORBIDDEN| ==> !HasPhrase(Code(ts), [FORBIDDEN[i]]) {
      forall j, w | w in FORBIDDEN ensures !IsRun(ts, j, w) {
        var i :| 0 <= i < |FORBIDDEN| && FORBIDDEN[i] == w;
        assert !HasPhrase(Code(ts), [FORBIDDEN[i]]);
      }
    }
    if NeverWrites(ts) {
      forall i | 0 <= i < |FORBIDDEN| ensures !HasPhrase(Code(ts), [FORBIDDEN[i]]) { assert FORBIDDEN[i] in FORBIDDEN; }
    }
  }

  lemma LocksIff(ts: seq<Token>)
    ensures Locks(Code(ts)) <==> !NeverLocks(ts)
  {
    hide HasPhrase, Follow, Code;
    var locks := {["into"], ["for", "update"], ["lock", "in", "share", "mode"]};
    forall words | words in locks ensures HasPhrase(Code(ts), words) <==> exists at :: Follow(ts, at, words) {
      assert IsWord("into") && IsWord("for") && IsWord("update");
      assert IsWord("lock") && IsWord("in") && IsWord("share") && IsWord("mode");
      hide IsWord;
      HasPhraseIff(ts, words);
    }
  }

  // ----- the program

  lemma Accepted(statement: string, parameters: map<string, Value>, esc: bool)
    ensures forall ts :: SourceText(ts) == statement && Lexes(ts, esc) && Bindable(ts, parameters) ==>
                           var r := Preparation(statement, parameters, esc);
                           (r.Ok? <==> Selects(ts) && NeverWrites(ts) && NeverLocks(ts)) &&
                           (r.Ok? ==> r.value == Prepared(Sent(ts), Values(ts, parameters)))
  {
    hide Verdict, Bind, Selects, NeverWrites, NeverLocks, SourceText, Lexes, Bindable, Sent, Values;
    var r := Preparation(statement, parameters, esc);
    forall ts | SourceText(ts) == statement && Lexes(ts, esc) && Bindable(ts, parameters)
      ensures r.Ok? <==> Selects(ts) && NeverWrites(ts) && NeverLocks(ts)
      ensures r.Ok? ==> r.value == Prepared(Sent(ts), Values(ts, parameters)) {
      BindIff(statement, parameters, esc, ts);
      VerdictIff(ts, parameters);
    }
  }

  datatype Prepared = Prepared(sql: string, values: seq<Value>)

  function Verdict(ts: seq<Token>, parameters: map<string, Value>): Result<Prepared, SqlError> {
    if !ReadOnly(Code(ts)) then Err(NotReadOnly)
    else if Locks(Code(ts)) then Err(Locking)
    else Ok(Prepared(Sent(ts), Values(ts, parameters)))
  }

  /** The result of `prepareReadOnlyDataflowSql`. */
  function Preparation(statement: string, parameters: map<string, Value>, esc: bool): Result<Prepared, SqlError> {
    match Bind(statement, parameters, esc)
    case Err(e) => Err(e)
    case Ok(ts) => Verdict(ts, parameters)
  }

  /** What is sent to the database for a tokenised statement. */
  function Sent(ts: seq<Token>): string {
    Trim(SourceText(AllMarked(ts)))
  }

  /** The statement sent to the database, trimmed, has a tokenisation ... */
  lemma SentLexes(ts: seq<Token>, esc: bool) returns (es: seq<Token>, a: nat)
    requires Lexes(ts, esc)
    ensures Lexes(es, esc) && SourceText(es) == Sent(ts) && Significant(es) == Significant(AllMarked(ts))
    ensures TrimmedAt(es, AllMarked(ts), a)
  {
    MarkedLexes(ts, esc);
    a := TrimStartTokens(AllMarked(ts), esc);
    es := TrimEndTokens(AllMarked(ts)[a..], esc);
    TrimmedBothEnds(es, AllMarked(ts), a);
  }

  lemma TrimmedBothEnds(es: seq<Token>, ts: seq<Token>, a: nat)
    requires a <= |ts| && TrimmedAt(ts[a..], ts, a) && TrimmedAt(es, ts[a..], 0)
    ensures TrimmedAt(es, ts, a)
  {
    assert forall i :: a <= i < |ts| ==> ts[i] == ts[a..][i - a];
  }

  /** ... and however it is rescanned, in it exactly the tokens of the statement that was checked,
      comments included, but for blanks at the ends and at the end of a last comment: the same
      significant tokens, a placeholder for each parameter and a value for each placeholder. */
  lemma SentRescans(ts: seq<Token>, parameters: map<string, Value>, esc: bool, es: seq<Token>) returns (a: nat)
    requires Lexes(ts, esc) && Bindable(ts, parameters) && Lexes(es, esc) && SourceText(es) == Sent(ts)
    ensures TrimmedAt(es, AllMarked(ts), a)
    ensures Significant(es) == Significant(AllMarked(ts)) && Placeholders(es) == |Values(ts, parameters)|
  {
    var own;
    own, a := SentLexes(ts, esc);
    TokensUnique(es, own, esc);
    SignificantPlaceholders(es);
    SignificantPlaceholders(AllMarked(ts));
    MarkedCode(ts, parameters);
  }

  function Placeholders(ts: seq<Token>): nat {
    if ts == [] then 0 else (if ts[0].Mark? then 1 else 0) + Placeholders(ts[1..])
  }

  lemma {:induction false} SignificantPlaceholders(ts: seq<Token>)
    ensures Placeholders(Significant(ts)) == Placeholders(ts)
  {
    if ts != [] {
      SignificantPlaceholders(ts[1..]);
      assert ([ts[0]] + Significant(ts[1..]))[1..] == Significant(ts[1..]);
      assert [] + Significant(ts[1..]) == Significant(ts[1..]);
    }
  }

  /** Marking changes neither the checked code nor the number of parameters; every bound parameter
      contributes its value at its place. */
  lemma {:induction false} MarkedCode(ts: seq<Token>, parameters: map<string, Value>)
    requires Bindable(ts, parameters)
    ensures Code(AllMarked(ts)) == Code(ts)
    ensures Placeholders(AllMarked(ts)) == |Values(ts, parameters)| == |Names(ts)|
    ensures forall i :: 0 <= i < |Names(ts)| ==>
                          Names(ts)[i] in parameters && IsScalar(parameters[Names(ts)[i]]) &&
                          Values(ts, parameters)[i] == parameters[Names(ts)[i]]
  {
    if ts != [] {
      assert Problem(ts[0], parameters).None?;
      assert Bindable(ts[1..], parameters);
      MarkedCode(ts[1..], parameters);
      assert AllMarked(ts)[1..] == AllMarked(ts[1..]);
    }
  }

  /** The end of the literal whose scan has come to index `i`. */
  function CloseFrom(s: string, i: nat, q: char, esc: bool): Option<nat> {
    if i > |s| then None else Shift(Close(s[i..], q, esc), i)
  }

  lemma CloseStep(s: string, i: nat, q: char, esc: bool)
    requires i < |s|
    ensures s[i] == '\\' && Escapes(q, esc) ==> CloseFrom(s, i, q, esc) == CloseFrom(s, i + 2, q, esc)
    ensures !(s[i] == '\\' && Escapes(q, esc)) && s[i] == q && Heads(s[i + 1..], q) ==> CloseFrom(s, i, q, esc) == CloseFrom(s, i + 2, q, esc)
    ensures !(s[i] == '\\' && Escapes(q, esc)) && s[i] == q && !Heads(s[i + 1..], q) ==> CloseFrom(s, i, q, esc) == Some(i + 1)
    ensures !(s[i] == '\\' && Escapes(q, esc)) && s[i] != q ==> CloseFrom(s, i, q, esc) == CloseFrom(s, i + 1, q, esc)
  {
    var rest := s[i..];
    assert rest[1..] == s[i + 1..];
    assert |rest| >= 2 ==> rest[2..] == s[i + 2..] && s[i + 1..][0] == rest[1];
  }

  /** The inner loop over one quoted region. */
  method ScanQuoted(statement: string, begin: nat, esc: bool) returns (index: nat, closed: bool)
    requires begin < |statement|
    ensures match Close(statement[begin + 1..], statement[begin], esc)
            case None => !closed
            case Some(n) => closed && index == begin + 1 + n
  {
    var q := statement[begin];
    index, closed := begin + 1, false;
    ghost var end := CloseFrom(statement, index, q, esc);
    hide Close;
    while index < |statement|
      invariant end == CloseFrom(statement, index, q, esc)
      decreases |statement| - index
    {
      CloseStep(statement, index, q, esc);
      if statement[index] == '\\' && esc && q != '`' {
        index := index + 2;
        continue;
      }
      index := index + 1;
      if statement[index - 1] == q {
        if index < |statement| && statement[index] == q {
          index := index + 1;
          continue;
        }
        closed := true;
        return;
      }
    }
    CloseNothing(statement, index, q, esc);
  }

  lemma CloseNothing(s: string, i: nat, q: char, esc: bool)
    requires i >= |s|
    ensures CloseFrom(s, i, q, esc).None?
  {
  }

  /** What one turn of the scanning loop appends, and how far it moves. */
  datatype Piece = Piece(sql: string, code: string, values: seq<Value>, size: nat)

  function PieceOf(t: Token, parameters: map<string, Value>): Piece {
    Piece(Source(Marked(t)), CodeOf(t), if t.Param? && t.name in parameters then [parameters[t.name]] else [], |Source(t)|)
  }

  /** One turn of the scanning loop. */
  method ScanToken(statement: string, index: nat, parameters: map<string, Value>, esc: bool)
    returns (r: Result<Piece, SqlError>)
    requires index < |statement|
    ensures match Next(statement[index..], esc)
            case Err(e) => r == Err(e)
            case Ok(t) =>
              r == if Problem(t, parameters).Some? then Err(Problem(t, parameters).value) else Ok(PieceOf(t, parameters))
  {
    var rest, c := statement[index..], statement[index];
    hide Close, LineEnd, BlockEnd, NameLength, Executable, StartsLine;
    if IsQuote(c) {
      var end, closed := ScanQuoted(statement, index, esc);
      assert statement[index + 1..] == rest[1..];
      if !closed { return Err(UnclosedQuote); }
      assert statement[index..end] == rest[..end - index];
      return Ok(Piece(statement[index..end], " ", [], end - index));
    }
    if StartsLine(rest) {
      var n := LineEnd(rest);
      return Ok(Piece(rest[..n], " ", [], n));
    }
    if StartsBlock(rest) {
      if Executable(rest) { return Err(ExecutableComment); }
      var n := BlockEnd(rest, 2);
      if n.None? { return Err(UnclosedComment); }
      return Ok(Piece(rest[..n.value + 2], " ", [], n.value + 2));
    }
    if c == ':' && |rest| >= 2 && IsNameStart(rest[1]) {
      var name := rest[1..1 + NameLength(rest[1..])];
      if name !in parameters { return Err(Missing(name)); }
      if !IsScalar(parameters[name]) { return Err(NotScalar(name)); }
      return Ok(Piece("?", "?", [parameters[name]], |name| + 1));
    }
    if c == '?' { return Err(BarePlaceholder); }
    r := Ok(Piece([c], [c], [], 1));
  }

  /** The loop has scanned the tokens `ts` of the statement and stands at `index`. */
  ghost predicate Scanned(statement: string, parameters: map<string, Value>, esc: bool, index: nat, ts: seq<Token>)
    requires index <= |statement|
  {
    Bind(statement, parameters, esc) == Prepend(ts, Bind(statement[index..], parameters, esc))
  }

  ghost predicate Accumulated(ts: seq<Token>, parameters: map<string, Value>, sql: string, code: string, values: seq<Value>) {
    sql == SourceText(AllMarked(ts)) && code == Code(ts) && values == Values(ts, parameters)
  }

  lemma ScannedNothing(statement: string, parameters: map<string, Value>, esc: bool)
    ensures Scanned(statement, parameters, esc, 0, []) && Accumulated([], parameters, "", "", [])
  {
    assert statement[0..] == statement;
    PrependNothing(Bind(statement, parameters, esc));
  }

  /** An error at the next token is the error of the whole statement. */
  lemma ScannedError(statement: string, parameters: map<string, Value>, esc: bool, index: nat, ts: seq<Token>)
    requires index < |statement| && Scanned(statement, parameters, esc, index, ts)
    ensures match Next(statement[index..], esc)
            case Err(e) => Preparation(statement, parameters, esc) == Err(e)
            case Ok(t) => Problem(t, parameters).Some? ==> Preparation(statement, parameters, esc) == Err(Problem(t, parameters).value)
  {
    BindUnfold(statement[index..], parameters, esc);
  }

  lemma ScannedMore(statement: string, parameters: map<string, Value>, esc: bool, index: nat, ts: seq<Token>, t: Token)
    requires index < |statement| && Scanned(statement, parameters, esc, index, ts)
    requires Next(statement[index..], esc) == Ok(t) && Problem(t, parameters).None?
    ensures index + |Source(t)| <= |statement| && Source(t) != []
    ensures Scanned(statement, parameters, esc, index + |Source(t)|, ts + [t])
  {
    hide Next, Problem, Source;
    var rest := statement[index..];
    BindUnfold(rest, parameters, esc);
    assert statement[index + |Source(t)|..] == rest[|Source(t)|..];
    PrependTwice(ts, t, Bind(rest[|Source(t)|..], parameters, esc));
  }

  lemma AccumulatedMore(ts: seq<Token>, t: Token, parameters: map<string, Value>, sql: string, code: string, values: seq<Value>)
    requires Accumulated(ts, parameters, sql, code, values)
    ensures var p := PieceOf(t, parameters); Accumulated(ts + [t], parameters, sql + p.sql, code + p.code, values + p.values)
  {
    SourceAppended(ts, t);
    CodeAppended(ts, t);
    ValuesAppended(ts, t, parameters);
  }

  /** `prepareReadOnlyDataflowSql` itself. */
  method Prepare(statement: string, parameters: map<string, Value>, noBackslashEscapes: bool)
    returns (r: Result<Prepared, SqlError>)
    ensures r == Preparation(statement, parameters, !noBackslashEscapes)
    ensures forall ts :: SourceText(ts) == statement && Lexes(ts, !noBackslashEscapes) && Bindable(ts, parameters) ==>
                           (r.Ok? <==> Selects(ts) && NeverWrites(ts) && NeverLocks(ts)) &&
                           (r.Ok? ==> r.value == Prepared(Sent(ts), Values(ts, parameters)))
  {
    hide Scanned, Accumulated, Bind, SourceText, Code, Values, AllMarked, Next, Problem, Preparation, Marked, CodeOf, Source;
    var esc := !noBackslashEscapes;
    var sql, code, values := "", "", [];
    var index := 0;
    ghost var ts: seq<Token> := [];
    ScannedNothing(statement, parameters, esc);
    while index < |statement|
      invariant index <= |statement|
      invariant Scanned(statement, parameters, esc, index, ts) && Accumulated(ts, parameters, sql, code, values)
      decreases |statement| - index
    {
      var piece := ScanToken(statement, index, parameters, esc);
      ScannedError(statement, parameters, esc, index, ts);
      if piece.Err? { Accepted(statement, parameters, esc); return Err(piece.error); }
      ghost var t := Next(statement[index..], esc).value;
      ScannedMore(statement, parameters, esc, index, ts, t);
      AccumulatedMore(ts, t, parameters, sql, code, values);
      sql, code, values := sql + piece.value.sql, code + piece.value.code, values + piece.value.values;
      index, ts := index + piece.value.size, ts + [t];
    }
    AtTheEnd(statement, parameters, esc, ts);
    r := Conclude(ts, parameters, sql, code, values);
    Accepted(statement, parameters, esc);
  }

  /** The checks after the loop. */
  method Conclude(ghost ts: seq<Token>, ghost parameters: map<string, Value>, sql: string, code: string, values: seq<Value>)
    returns (r: Result<Prepared, SqlError>)
    requires Accumulated(ts, parameters, sql, code, values)
    ensures r == Verdict(ts, parameters)
  {
    if !ReadOnly(code) { return Err(NotReadOnly); }
    if Locks(code) { return Err(Locking); }
    r := Ok(Prepared(Trim(sql), values));
  }

  lemma PrependNothing(r: Result<seq<Token>, SqlError>)
    ensures Prepend([], r) == r
  {
    if r.Ok? { assert [] + r.value == r.value; }
  }

  lemma AtTheEnd(statement: string, parameters: map<string, Value>, esc: bool, ts: seq<Token>)
    requires Scanned(statement, parameters, esc, |statement|, ts)
    ensures Preparation(statement, parameters, esc) == Verdict(ts, parameters)
  {
    assert ts + [] == ts;
  }

  lemma BindUnfold(s: string, parameters: map<string, Value>, esc: bool)
    requires s != []
    ensures Next(s, esc).Err? ==> Bind(s, parameters, esc) == Err(Next(s, esc).error)
    ensures Next(s, esc).Ok? ==>
              var t := Next(s, esc).value;
              match Problem(t, parameters)
              case Some(e) => Bind(s, parameters, esc) == Err(e)
              case None => Bind(s, parameters, esc) == Prepend([t], Bind(s[|Source(t)|..], parameters, esc))
  {
  }

  lemma PrependTwice(ts: seq<Token>, t: Token, r: Result<seq<Token>, SqlError>)
    ensures Prepend(ts, Prepend([t], r)) == Prepend(ts + [t], r)
  {
    if r.Ok? { assert ts + ([t] + r.value) == ts + [t] + r.value; }
  }

  // What one more token adds to everything the scanner accumulates.

  lemma {:induction false} SourceAppended(ts: seq<Token>, t: Token)
    ensures SourceText(AllMarked(ts + [t])) == SourceText(AllMarked(ts)) + Source(Marked(t))
  {
    if ts == [] {
      assert [] + [t] == [t];
    } else {
      assert (ts + [t])[1..] == ts[1..] + [t];
      SourceAppended(ts[1..], t);
    }
  }

  lemma {:induction false} CodeAppended(ts: seq<Token>, t: Token)
    ensures Code(ts + [t]) == Code(ts) + CodeOf(t)
  {
    if ts == [] {
      assert [] + [t] == [t];
    } else {
      assert (ts + [t])[1..] == ts[1..] + [t];
      CodeAppended(ts[1..], t);
    }
  }

  lemma {:induction false} ValuesAppended(ts: seq<Token>, t: Token, parameters: map<string, Value>)
    ensures Values(ts + [t], parameters) ==
            Values(ts, parameters) + if t.Param? && t.name in parameters then [parameters[t.name]] else []
  {
    if ts == [] {
      assert [] + [t] == [t];
    } else {
      assert (ts + [t])[1..] == ts[1..] + [t];
      ValuesAppended(ts[1..], t, parameters);
    }
  }
}
