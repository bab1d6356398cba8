/** The text of the tail command's query, and what Cloud Logging makes of it. The logging query language
    is taken from its documentation: NOT binds tightest, then OR, then AND; AND may be left out. */
module QueryFilter {
  import opened AuditLog

  // ---- the query as text ----

  const LOG_IDS := [
    "audit.abcxyz/unspecified", "audit.abcxyz/activity", "audit.abcxyz/data_access", "audit.abcxyz/consent",
    "audit.abcxyz/system_event"]

  function Quoted(s: string): string {
    "\"" + s + "\""
  }

  function LogIdText(id: string): string {
    "LOG_ID(" + Quoted(id) + ")"
  }

  /** The ids joined by OR. */
  function LogTypeText(ids: seq<string>): string
    requires ids != []
  {
    if |ids| == 1 then LogIdText(ids[0]) else LogIdText(ids[0]) + " " + ("OR" + " " + LogTypeText(ids[1..]))
  }

  function CutoffText(time: string): string {
    "timestamp" + " " + (">=" + " " + Quoted(time))
  }

  /** The cutoff time is given; the original reads the clock. */
  function Query(overrideFilter: string, time: string, additionalFilter: string): string {
    if overrideFilter != "" then overrideFilter
    else
      var f := LogTypeText(LOG_IDS) + " " + ("AND" + " " + CutoffText(time));
      if additionalFilter == "" then f else f + " " + ("AND" + " " + additionalFilter)
  }

  // ---- tokens ----

  datatype Token =
    | TAnd | TOr | TNot | TOpen | TClose
    | TCall(name: string)     // a name with its opening parenthesis
    | TOp(op: string)
    | TWord(text: string)

  predicate Blank(c: char) {
    c == ' ' || c == '\t' || c == '\n' || c == '\r'
  }

  predicate OpChar(c: char) {
    c == '=' || c == '!' || c == '<' || c == '>' || c == ':' || c == '~'
  }

  predicate EndsWord(c: char) {
    Blank(c) || OpChar(c) || c == '(' || c == ')'
  }

  /** The word at the start of s and what follows it. Inside double quotes every character belongs to
      the word, and a backslash takes the next one with it; an unclosed quote is an error. */
  function Word(s: string, quoted: bool): (r: Option<(string, string)>)
    ensures r.Some? ==> s == r.value.0 + r.value.1
    ensures r.Some? && s != "" && (quoted || !EndsWord(s[0])) ==> r.value.0 != ""
  {
    if s == "" then if quoted then None else Some(("", ""))
    else if !quoted && EndsWord(s[0]) then Some(("", s))
    else if quoted && s[0] == '\\' && |s| > 1 then Prefixed(s[..2], Word(s[2..], true))
    else Prefixed(s[..1], Word(s[1..], if s[0] == '"' then !quoted else quoted))
  }

  function Prefixed(p: string, r: Option<(string, string)>): Option<(string, string)> {
    match r case None => None case Some((w, rest)) => Some((p + w, rest))
  }

  function OpLength(s: string): (n: nat)
    ensures n <= |s|
    ensures s != "" && OpChar(s[0]) ==> n > 0
  {
    if s != "" && OpChar(s[0]) then 1 + OpLength(s[1..]) else 0
  }

  function Keyword(w: string): Option<Token> {
    if w == "AND" then Some(TAnd) else if w == "OR" then Some(TOr) else if w == "NOT" then Some(TNot) else None
  }

  function Before(t: Token, rest: Option<seq<Token>>): Option<seq<Token>> {
    match rest case None => None case Some(ts) => Some([t] + ts)
  }

  function Lex(s: string): Option<seq<Token>>
    decreases |s|
  {
    if s == "" then Some([])
    else if Blank(s[0]) then Lex(s[1..])
    else if s[0] == '(' then Before(TOpen, Lex(s[1..]))
    else if s[0] == ')' then Before(TClose, Lex(s[1..]))
    else if OpChar(s[0]) then Before(TOp(s[..OpLength(s)]), Lex(s[OpLength(s)..]))
    else
      match Word(s, false)
      case None => None
      case Some((w, rest)) =>
        if Keyword(w).Some? then Before(Keyword(w).value, Lex(rest))
        else if rest != "" && rest[0] == '(' then Before(TCall(w), Lex(rest[1..]))
        else Before(TWord(w), Lex(rest))
  }

  // ---- syntax ----

  datatype Operand = Text(text: string) | Call(name: string, args: seq<string>)

  /** A test is a text search, a function call, or a comparison with a value or a choice of values. */
  datatype Expr =
    | And(l: Expr, r: Expr)
    | Or(l: Expr, r: Expr)
    | Not(e: Expr)
    | Test(left: Operand)
    | Compare(left: Operand, op: string, right: string)
    | CompareAny(left: Operand, op: string, choice: Expr)

  type Parsed = Option<(Expr, seq<Token>)>

  /** The words up to the closing parenthesis of a call. */
  function ParseArgs(ts: seq<Token>): (r: Option<(seq<string>, seq<Token>)>)
    ensures r.Some? ==> |r.value.1| < |ts|
  {
    if ts == [] then None
    else if ts[0].TClose? then Some(([], ts[1..]))
    else if ts[0].TWord? then
      match ParseArgs(ts[1..]) case None => None case Some((args, rest)) => Some(([ts[0].text] + args, rest))
    else None
  }

  function ParseOperand(ts: seq<Token>): (r: Option<(Operand, seq<Token>)>)
    ensures r.Some? ==> |r.value.1| < |ts|
  {
    if ts == [] then None
    else
      match ts[0]
      case TWord(w) => Some((Text(w), ts[1..]))
      case TCall(name) =>
        (match ParseArgs(ts[1..]) case None => None case Some((args, rest)) => Some((Call(name, args), rest)))
      case _ => None
  }

  function ParseFactor(ts: seq<Token>): (r: Parsed)
    ensures r.Some? ==> |r.value.1| < |ts|
    decreases |ts|, 0
  {
    if ts == [] then None
    else if ts[0].TNot? then
      match ParseFactor(ts[1..]) case None => None case Some((e, rest)) => Some((Not(e), rest))
    else if ts[0].TOpen? then
      match ParseQuery(ts[1..])
      case None => None
      case Some((e, rest)) => if rest != [] && rest[0].TClose? then Some((e, rest[1..])) else None
    else
      match ParseOperand(ts)
      case None => None
      case Some((left, rest)) =>
        if rest == [] || !rest[0].TOp? then Some((Test(left), rest))
        else if |rest| > 1 && rest[1].TWord? then Some((Compare(left, rest[0].op, rest[1].text), rest[2..]))
        else if |rest| > 1 && rest[1].TOpen? then
          match ParseQuery(rest[2..])
          case None => None
          case Some((e, tail)) =>
            if tail != [] && tail[0].TClose? then Some((CompareAny(left, rest[0].op, e), tail[1..])) else None
        else None
  }

  function ParseDisjunction(ts: seq<Token>): (r: Parsed)
    ensures r.Some? ==> |r.value.1| < |ts|
    decreases |ts|, 1
  {
    match ParseFactor(ts)
    case None => None
    case Some((e, rest)) =>
      if rest == [] || !rest[0].TOr? then Some((e, rest))
      else match ParseDisjunction(rest[1..]) case None => None case Some((f, tail)) => Some((Or(e, f), tail))
  }

  function ParseQuery(ts: seq<Token>): (r: Parsed)
    ensures r.Some? ==> |r.value.1| < |ts|
    decreases |ts|, 2
  {
    match ParseDisjunction(ts)
    case None => None
    case Some((e, rest)) =>
      if rest == [] || rest[0].TClose? then Some((e, rest))
      else
        match ParseQuery(if rest[0].TAnd? then rest[1..] else rest)
        case None => None
        case Some((f, tail)) => Some((And(e, f), tail))
  }

  /** The meaning of a text: its expression, if it is a well-formed query. */
  function Parse(s: string): Option<Expr> {
    match Lex(s)
    case None => None
    case Some(ts) => match ParseQuery(ts) case Some((e, rest)) => (if rest == [] then Some(e) else None) case None => None
  }

  /** `v` says which tests an entry meets. */
  predicate Eval(e: Expr, v: Expr -> bool) {
    match e
    case And(l, r) => Eval(l, v) && Eval(r, v)
    case Or(l, r) => Eval(l, v) || Eval(r, v)
    case Not(x) => !Eval(x, v)
    case _ => v(e)
  }

  // ---- lexing across a blank ----

  lemma {:induction false} WordAppend(s: string, quoted: bool, tail: string)
    requires Word(s, quoted).Some? && tail != "" && EndsWord(tail[0])
    ensures Word(s + tail, quoted) == Some((Word(s, quoted).value.0, Word(s, quoted).value.1 + tail))
    decreases |s|
  {
    var st := s + tail;
    if s == "" {
      assert st == tail;
    } else if !quoted && EndsWord(s[0]) {
      assert st[0] == s[0];
    } else if quoted && s[0] == '\\' && |s| > 1 {
      assert st[..2] == s[..2] && st[2..] == s[2..] + tail;
      WordAppend(s[2..], true, tail);
    } else {
      assert st[..1] == s[..1] && st[1..] == s[1..] + tail;
      WordAppend(s[1..], if s[0] == '"' then !quoted else quoted, tail);
    }
  }

  lemma {:induction false} OpAppend(s: string, tail: string)
    requires tail == "" || !OpChar(tail[0])
    ensures OpLength(s + tail) == OpLength(s)
  {
    if s == "" {
      assert s + tail == tail;
    } else {
      assert (s + tail)[1..] == s[1..] + tail;
      OpAppend(s[1..], tail);
    }
  }

  function Joined(a: Option<seq<Token>>, b: Option<seq<Token>>): Option<seq<Token>> {
    if a.None? || b.None? then None else Some(a.value + b.value)
  }

  lemma JoinedBefore(t: Token, a: Option<seq<Token>>, b: Option<seq<Token>>)
    ensures Before(t, Joined(a, b)) == Joined(Before(t, a), b)
  {
    if a.Some? && b.Some? {
      assert [t] + (a.value + b.value) == [t] + a.value + b.value;
    }
  }

  /** A blank after a text whose quotes are closed separates its tokens from those that follow. */
  lemma {:induction false} LexAppend(a: string, b: string)
    requires Lex(a).Some?
    ensures Lex(a + " " + b) == Joined(Lex(a), Lex(b))
    decreases |a|, 1
  {
    if a == "" {
      assert a + " " + b == " " + b && (" " + b)[1..] == b;
      if Lex(b).Some? { assert [] + Lex(b).value == Lex(b).value; }
    } else if OpChar(a[0]) {
      LexOpAppend(a, b);
    } else if EndsWord(a[0]) {
      LexCharAppend(a, b);
    } else {
      LexWordAppend(a, b);
    }
  }

  lemma {:induction false} LexCharAppend(a: string, b: string)
    requires a != "" && EndsWord(a[0]) && !OpChar(a[0]) && Lex(a).Some?
    ensures Lex(a + " " + b) == Joined(Lex(a), Lex(b))
    decreases |a|, 0
  {
    var s := a + " " + b;
    assert s[0] == a[0] && s[1..] == a[1..] + " " + b;
    LexAppend(a[1..], b);
    JoinedBefore(if a[0] == '(' then TOpen else TClose, Lex(a[1..]), Lex(b));
  }

  lemma {:induction false} LexOpAppend(a: string, b: string)
    requires a != "" && OpChar(a[0]) && Lex(a).Some?
    ensures Lex(a + " " + b) == Joined(Lex(a), Lex(b))
    decreases |a|, 0
  {
    var s, n := a + " " + b, OpLength(a);
    OpAppend(a, " " + b);
    assert s == a + (" " + b);
    assert s[0] == a[0] && s[..n] == a[..n] && s[n..] == a[n..] + " " + b;
    LexAppend(a[n..], b);
    JoinedBefore(TOp(a[..n]), Lex(a[n..]), Lex(b));
  }

  /** The token that a word becomes, by what follows it, and how much of that it takes along. */
  function WordToken(w: string, rest: string): (Token, nat) {
    if Keyword(w).Some? then (Keyword(w).value, 0)
    else if rest != "" && rest[0] == '(' then (TCall(w), 1)
    else (TWord(w), 0)
  }

  lemma LexWord(s: string)
    requires s != "" && !EndsWord(s[0]) && Word(s, false).Some?
    ensures var (w, rest) := Word(s, false).value;
      var (token, n) := WordToken(w, rest);
      n <= |rest| && Lex(s) == Before(token, Lex(rest[n..]))
  {
    var (w, rest) := Word(s, false).value;
    assert rest[0..] == rest;
  }

  lemma {:induction false} LexWordAppend(a: string, b: string)
    requires a != "" && !EndsWord(a[0]) && Lex(a).Some?
    ensures Lex(a + " " + b) == Joined(Lex(a), Lex(b))
    decreases |a|, 0
  {
    var tail := " " + b;
    var (w, rest) := Word(a, false).value;
    var (token, n) := WordToken(w, rest);
    assert a + " " + b == a + tail && (a + tail)[0] == a[0];
    WordAppend(a, false, tail);
    LexWord(a);
    LexWord(a + tail);
    StillToken(w, rest, b);
    LexAppend(rest[n..], b);
    JoinedBefore(token, Lex(rest[n..]), Lex(b));
  }

  lemma StillToken(w: string, rest: string, b: string)
    ensures var (token, n) := WordToken(w, rest);
      && WordToken(w, rest + (" " + b)) == (token, n)
      && n <= |rest| && (rest + (" " + b))[n..] == rest[n..] + " " + b
  {
    if rest == "" { assert rest + (" " + b) == " " + b; }
  }

  // ---- the tokens of the fixed parts ----

  predicate PlainChar(c: char) {
    !EndsWord(c) && c != '"'
  }

  lemma {:induction false} PlainWord(w: string, rest: string)
    requires forall i :: 0 <= i < |w| ==> PlainChar(w[i])
    requires rest == "" || EndsWord(rest[0])
    ensures Word(w + rest, false) == Some((w, rest))
  {
    if w == "" {
      assert w + rest == rest;
    } else {
      assert (w + rest)[1..] == w[1..] + rest && (w + rest)[..1] == w[..1];
      PlainWord(w[1..], rest);
      assert w[..1] + w[1..] == w;
    }
  }

  /** No quote and no backslash, as in log ids and RFC 3339 times. */
  predicate Unescaped(s: string) {
    '"' !in s && '\\' !in s
  }

  lemma {:induction false} InsideQuotes(s: string, rest: string)
    requires Unescaped(s) && (rest == "" || EndsWord(rest[0]))
    ensures Word(s + "\"" + rest, true) == Some((s + "\"", rest))
  {
    var t := s + "\"" + rest;
    if s == "" {
      assert t[0] == '"' && t[1..] == rest && t[..1] == "\"";
      PlainWord("", rest);
      assert "" + rest == rest;
    } else {
      assert t[0] == s[0] && t[1..] == s[1..] + "\"" + rest && t[..1] == s[..1];
      InsideQuotes(s[1..], rest);
      assert s[..1] + (s[1..] + "\"") == s + "\"";
    }
  }

  lemma LexPlain(w: string)
    requires w != "" && forall i :: 0 <= i < |w| ==> PlainChar(w[i])
    ensures Lex(w) == Some([if Keyword(w).Some? then Keyword(w).value else TWord(w)])
  {
    PlainWord(w, "");
    assert w + "" == w;
    assert PlainChar(w[0]);
    LexWord(w);
    LexEmpty(if Keyword(w).Some? then Keyword(w).value else TWord(w));
  }

  lemma LexEmpty(token: Token)
    ensures Before(token, Lex("")) == Some([token])
  {
    assert [token] + [] == [token];
  }

  /** A keyword between two texts. */
  lemma LexBetween(a: string, keyword: string, token: Token, b: string)
    requires Lex(a).Some? && Lex(keyword) == Some([token])
    ensures Lex(a + " " + (keyword + " " + b)) == Joined(Lex(a), Before(token, Lex(b)))
  {
    LexAppend(keyword, b);
    LexAppend(a, keyword + " " + b);
    assert Joined(Some([token]), Lex(b)) == Before(token, Lex(b));
  }

  lemma LexAnd()
    ensures Lex("AND") == Some([TAnd])
  {
    LexPlain("AND");
  }

  lemma LexOr()
    ensures Lex("OR") == Some([TOr])
  {
    LexPlain("OR");
  }

  lemma WordQuoted(s: string, rest: string)
    requires Unescaped(s) && (rest == "" || EndsWord(rest[0]))
    ensures Word(Quoted(s) + rest, false) == Some((Quoted(s), rest))
  {
    var t := Quoted(s) + rest;
    assert t[0] == '"' && t[..1] == "\"" && t[1..] == s + "\"" + rest;
    InsideQuotes(s, rest);
    assert Word(t[1..], true) == Some((s + "\"", rest));
    OpeningQuote(t);
    assert "\"" + (s + "\"") == Quoted(s);
  }

  lemma OpeningQuote(t: string)
    requires t != "" && t[0] == '"'
    ensures Word(t, false) == Prefixed(t[..1], Word(t[1..], true))
  {
  }

  lemma LexQuoted(s: string, rest: string)
    requires Unescaped(s) && (rest == "" || rest[0] == ')')
    ensures Lex(Quoted(s) + rest) == Before(TWord(Quoted(s)), Lex(rest))
  {
    var t := Quoted(s) + rest;
    WordQuoted(s, rest);
    assert t[0] == '"' == Quoted(s)[0];
    LexWord(t);
    assert rest[0..] == rest;
  }

  lemma LexCallName(s: string, w: string, rest: string)
    requires s != "" && !EndsWord(s[0]) && Word(s, false) == Some((w, "(" + rest)) && Keyword(w).None?
    ensures Lex(s) == Before(TCall(w), Lex(rest))
  {
    assert ("(" + rest)[1..] == rest;
  }

  lemma LexCall(name: string, rest: string)
    requires name != "" && forall i :: 0 <= i < |name| ==> PlainChar(name[i])
    requires Keyword(name).None?
    ensures Lex(name + ("(" + rest)) == Before(TCall(name), Lex(rest))
  {
    PlainWord(name, "(" + rest);
    assert PlainChar(name[0]) && (name + ("(" + rest))[0] == name[0];
    LexCallName(name + ("(" + rest), name, rest);
  }

  lemma LexArgument(arg: string)
    requires Unescaped(arg)
    ensures Lex(Quoted(arg) + ")") == Some([TWord(Quoted(arg)), TClose])
  {
    LexQuoted(arg, ")");
    LexClose();
    assert [TWord(Quoted(arg))] + [TClose] == [TWord(Quoted(arg)), TClose];
  }

  lemma LexClose()
    ensures Lex(")") == Some([TClose])
  {
    assert ")"[1..] == "";
    assert [TClose] + [] == [TClose];
  }

  lemma LexLogId(id: string)
    requires Unescaped(id)
    ensures Lex(LogIdText(id)) == Some([TCall("LOG_ID"), TWord(Quoted(id)), TClose])
  {
    LexLogIdCall(Quoted(id) + ")");
    LexArgument(id);
    LogIdGroups(id);
    TwoMore(TCall("LOG_ID"), TWord(Quoted(id)), TClose);
  }

  lemma LogIdGroups(id: string)
    ensures LogIdText(id) == "LOG_ID" + ("(" + (Quoted(id) + ")"))
  {
    assert "LOG_ID(" == "LOG_ID" + "(";
  }

  lemma TwoMore(a: Token, b: Token, c: Token)
    ensures Before(a, Some([b, c])) == Some([a, b, c])
  {
    assert [a] + [b, c] == [a, b, c];
  }

  lemma LexLogIdCall(rest: string)
    ensures Lex("LOG_ID" + ("(" + rest)) == Before(TCall("LOG_ID"), Lex(rest))
  {
    LexCall("LOG_ID", rest);
  }

  function IdTokens(ids: seq<string>): seq<Token>
    requires ids != []
  {
    [TCall("LOG_ID"), TWord(Quoted(ids[0])), TClose] + if |ids| == 1 then [] else [TOr] + IdTokens(ids[1..])
  }

  lemma {:induction false} LexLogType(ids: seq<string>)
    requires ids != [] && forall i :: 0 <= i < |ids| ==> Unescaped(ids[i])
    ensures Lex(LogTypeText(ids)) == Some(IdTokens(ids))
    decreases |ids|
  {
    LexLogId(ids[0]);
    var one := [TCall("LOG_ID"), TWord(Quoted(ids[0])), TClose];
    if |ids| == 1 {
      assert one + [] == one;
    } else {
      LexLogType(ids[1..]);
      LexOr();
      LexBetween(LogIdText(ids[0]), "OR", TOr, LogTypeText(ids[1..]));
    }
  }

  function CutoffTokens(time: string): seq<Token> {
    [TWord("timestamp"), TOp(">="), TWord(Quoted(time))]
  }

  lemma LexAtLeast()
    ensures Lex(">=") == Some([TOp(">=")])
  {
    assert ">="[1..] == "=" && "="[1..] == "";
    assert OpLength("") == 0;
    assert OpLength("=") == 1;
    assert OpLength(">=") == 2;
    assert ">="[2..] == "" && ">="[..2] == ">=";
    assert [TOp(">=")] + [] == [TOp(">=")];
  }

  lemma LexComparison(field: string, op: string, value: string)
    requires Lex(field) == Some([TWord(field)]) && Lex(op) == Some([TOp(op)]) && Unescaped(value)
    ensures Lex(field + " " + (op + " " + Quoted(value))) == Some([TWord(field), TOp(op), TWord(Quoted(value))])
  {
    LexQuoted(value, "");
    assert Quoted(value) + "" == Quoted(value);
    assert [TWord(Quoted(value))] + [] == [TWord(Quoted(value))];
    LexBetween(field, op, TOp(op), Quoted(value));
    assert [TWord(field)] + ([TOp(op)] + [TWord(Quoted(value))]) == [TWord(field), TOp(op), TWord(Quoted(value))];
  }

  lemma LexTimestamp()
    ensures Lex("timestamp") == Some([TWord("timestamp")])
  {
    var w := "timestamp";
    assert forall i :: 0 <= i < |w| ==> PlainChar(w[i]);
    assert Keyword(w) == None;
    LexPlain(w);
  }

  lemma LexCutoff(time: string)
    requires Unescaped(time)
    ensures Lex(CutoffText(time)) == Some(CutoffTokens(time))
  {
    LexTimestamp();
    LexAtLeast();
    LexComparison("timestamp", ">=", time);
  }

  // ---- their syntax, whatever follows ----

  function IdTest(id: string): Expr {
    Test(Call("LOG_ID", [Quoted(id)]))
  }

  function AnyId(ids: seq<string>): Expr
    requires ids != []
  {
    if |ids| == 1 then IdTest(ids[0]) else Or(IdTest(ids[0]), AnyId(ids[1..]))
  }

  /** What may follow a complete operand of OR. */
  predicate EndsDisjunction(rest: seq<Token>) {
    rest == [] || !(rest[0].TOr? || rest[0].TOp?)
  }

  lemma ParseLogId(id: string, rest: seq<Token>)
    requires rest == [] || !rest[0].TOp?
    ensures ParseFactor([TCall("LOG_ID"), TWord(Quoted(id)), TClose] + rest) == Some((IdTest(id), rest))
  {
    var ts := [TCall("LOG_ID"), TWord(Quoted(id)), TClose] + rest;
    assert ts[1..] == [TWord(Quoted(id)), TClose] + rest;
    assert ts[1..][1..] == [TClose] + rest;
    assert ts[1..][1..][1..] == rest;
    assert ParseArgs(ts[1..][1..]) == Some(([], rest));
    assert [Quoted(id)] + [] == [Quoted(id)];
    assert ParseArgs(ts[1..]) == Some(([Quoted(id)], rest));
  }

  lemma {:induction false} ParseIds(ids: seq<string>, rest: seq<Token>)
    requires ids != [] && EndsDisjunction(rest)
    ensures ParseDisjunction(IdTokens(ids) + rest) == Some((AnyId(ids), rest))
    decreases |ids|
  {
    var one := [TCall("LOG_ID"), TWord(Quoted(ids[0])), TClose];
    if |ids| == 1 {
      assert IdTokens(ids) + rest == one + rest;
      ParseLogId(ids[0], rest);
    } else {
      var more := [TOr] + (IdTokens(ids[1..]) + rest);
      assert IdTokens(ids) + rest == one + more;
      ParseLogId(ids[0], more);
      assert more[1..] == IdTokens(ids[1..]) + rest;
      ParseIds(ids[1..], rest);
    }
  }

  function CutoffTest(time: string): Expr {
    Compare(Text("timestamp"), ">=", Quoted(time))
  }

  lemma ParseCutoff(time: string, rest: seq<Token>)
    requires EndsDisjunction(rest)
    ensures ParseDisjunction(CutoffTokens(time) + rest) == Some((CutoffTest(time), rest))
  {
    var ts := CutoffTokens(time) + rest;
    assert ts[1..] == [TOp(">="), TWord(Quoted(time))] + rest;
    assert ts[1..][2..] == rest;
    assert ParseOperand(ts) == Some((Text("timestamp"), ts[1..]));
  }

  /** Joining by AND: a complete disjunction, then AND, then any query. */
  lemma ParseAnd(front: seq<Token>, e: Expr, rest: seq<Token>)
    requires ParseDisjunction(front + ([TAnd] + rest)) == Some((e, [TAnd] + rest))
    ensures ParseQuery(front + ([TAnd] + rest)) ==
            match ParseQuery(rest) case None => None case Some((f, tail)) => Some((And(e, f), tail))
  {
    assert ([TAnd] + rest)[1..] == rest;
  }

  lemma {:induction false} AnyIdMeans(ids: seq<string>, v: Expr -> bool)
    requires ids != []
    ensures Eval(AnyId(ids), v) <==> exists i :: 0 <= i < |ids| && v(IdTest(ids[i]))
    decreases |ids|
  {
    if |ids| > 1 {
      AnyIdMeans(ids[1..], v);
      if i :| 0 <= i < |ids| && v(IdTest(ids[i])) {
        if i > 0 { assert ids[1..][i - 1] == ids[i]; }
      }
    }
  }

  lemma LogIdsAreUnescaped()
    ensures forall i :: 0 <= i < |LOG_IDS| ==> Unescaped(LOG_IDS[i])
  {
  }

  lemma LexFixed(time: string)
    requires Unescaped(time)
    ensures Lex(Query("", time, "")) == Some(IdTokens(LOG_IDS) + ([TAnd] + CutoffTokens(time)))
  {
    LogIdsAreUnescaped();
    LexLogType(LOG_IDS);
    LexCutoff(time);
    LexAnd();
    LexBetween(LogTypeText(LOG_IDS), "AND", TAnd, CutoffText(time));
  }

  /** The tokens of the query: the ids, the cutoff and the additional filter, joined by AND. */
  lemma LexQuery(time: string, additionalFilter: string)
    requires Unescaped(time) && additionalFilter != ""
    ensures Lex(Query("", time, additionalFilter)) ==
        match Lex(additionalFilter)
        case None => None
        case Some(ts) => Some(IdTokens(LOG_IDS) + ([TAnd] + (CutoffTokens(time) + ([TAnd] + ts))))
  {
    LexFixed(time);
    LexAnd();
    LexBetween(Query("", time, ""), "AND", TAnd, additionalFilter);
    if Lex(additionalFilter).Some? {
      var ts := Lex(additionalFilter).value;
      Regroup(IdTokens(LOG_IDS), [TAnd], CutoffTokens(time), [TAnd] + ts);
    }
  }

  lemma Regroup(a: seq<Token>, b: seq<Token>, c: seq<Token>, d: seq<Token>)
    ensures a + (b + c) + d == a + (b + (c + d))
  {
  }

  /** The syntax of the query, whatever the tokens of the additional filter are. */
  lemma ParseComposed(time: string, ts: seq<Token>)
    ensures ParseQuery(IdTokens(LOG_IDS) + ([TAnd] + (CutoffTokens(time) + ([TAnd] + ts)))) ==
            match ParseQuery(ts)
            case None => None
            case Some((f, tail)) => Some((And(AnyId(LOG_IDS), And(CutoffTest(time), f)), tail))
  {
    ParseCutoff(time, [TAnd] + ts);
    ParseAnd(CutoffTokens(time), CutoffTest(time), ts);
    var tail := CutoffTokens(time) + ([TAnd] + ts);
    ParseIds(LOG_IDS, [TAnd] + tail);
    ParseAnd(IdTokens(LOG_IDS), AnyId(LOG_IDS), tail);
  }

  /** The query as an expression. */
  function Composed(ids: seq<string>, time: string, f: Expr): Expr
    requires ids != []
  {
    And(AnyId(ids), And(CutoffTest(time), f))
  }

  lemma ParseOfQuery(time: string, additionalFilter: string)
    requires Unescaped(time) && additionalFilter != ""
    ensures Parse(Query("", time, additionalFilter)) ==
            match Parse(additionalFilter) case None => None case Some(f) => Some(Composed(LOG_IDS, time, f))
  {
    LexQuery(time, additionalFilter);
    if Lex(additionalFilter).Some? {
      ParseComposed(time, Lex(additionalFilter).value);
    }
  }

  lemma EvalOfComposed(ids: seq<string>, time: string, f: Expr, v: Expr -> bool)
    requires ids != []
    ensures Eval(Composed(ids, time, f), v) <==>
      (exists i :: 0 <= i < |ids| && v(IdTest(ids[i]))) && v(CutoffTest(time)) && Eval(f, v)
  {
    AnyIdMeans(ids, v);
    assert Eval(And(CutoffTest(time), f), v) <==> v(CutoffTest(time)) && Eval(f, v);
  }

  /** The entry is in the log of that id. */
  predicate InLog(v: Expr -> bool, id: string) {
    v(Test(Call("LOG_ID", ["\"" + id + "\""])))
  }

  /** The entry is in one of Lumberjack's five logs. */
  predicate InALog(v: Expr -> bool) {
    || InLog(v, "audit.abcxyz/unspecified")
    || InLog(v, "audit.abcxyz/activity")
    || InLog(v, "audit.abcxyz/data_access")
    || InLog(v, "audit.abcxyz/consent")
    || InLog(v, "audit.abcxyz/system_event")
  }

  /** The entry is from the cutoff or later. */
  predicate MeetsCutoff(v: Expr -> bool, time: string) {
    v(Compare(Text("timestamp"), ">=", "\"" + time + "\""))
  }

  lemma InALogIff(v: Expr -> bool)
    ensures InALog(v) <==> exists i :: 0 <= i < |LOG_IDS| && v(IdTest(LOG_IDS[i]))
  {
    assert forall i :: 0 <= i < |LOG_IDS| ==> (InLog(v, LOG_IDS[i]) <==> v(IdTest(LOG_IDS[i])));
    assert InALog(v) <==> InLog(v, LOG_IDS[0]) || InLog(v, LOG_IDS[1]) || InLog(v, LOG_IDS[2]) || InLog(v, LOG_IDS[3])
                          || InLog(v, LOG_IDS[4]);
  }

  /** Filter composition: although no parentheses are put in, the query with an additional filter is well
      formed exactly when that filter is, and then an entry matches it exactly when it is in one of the
      five logs, meets the cutoff, and matches the filter. */
  lemma QueryMeans(time: string, additionalFilter: string, v: Expr -> bool)
    requires Unescaped(time) && additionalFilter != ""
    ensures Parse(Query("", time, additionalFilter)).Some? <==> Parse(additionalFilter).Some?
    ensures Parse(additionalFilter).Some? ==>
      (Eval(Parse(Query("", time, additionalFilter)).value, v) <==>
        InALog(v) && MeetsCutoff(v, time) && Eval(Parse(additionalFilter).value, v))
  {
    ParseOfQuery(time, additionalFilter);
    InALogIff(v);
    if Parse(additionalFilter).Some? {
      EvalOfComposed(LOG_IDS, time, Parse(additionalFilter).value, v);
    }
  }

  lemma ParseOfFixed(time: string)
    requires Unescaped(time)
    ensures Parse(Query("", time, "")) == Some(And(AnyId(LOG_IDS), CutoffTest(time)))
  {
    LexFixed(time);
    var ts := CutoffTokens(time);
    assert ts + [] == ts;
    ParseCutoff(time, []);
    ParseIds(LOG_IDS, [TAnd] + ts);
    ParseAnd(IdTokens(LOG_IDS), AnyId(LOG_IDS), ts);
  }

  /** Without an additional filter, the five logs and the cutoff; an override filter is the whole query. */
  lemma PlainQueryMeans(time: string, overrideFilter: string, additionalFilter: string, v: Expr -> bool)
    requires Unescaped(time)
    ensures Parse(Query("", time, "")).Some?
    ensures Eval(Parse(Query("", time, "")).value, v) <==>
      InALog(v) && MeetsCutoff(v, time)
    ensures overrideFilter != "" ==> Query(overrideFilter, time, additionalFilter) == overrideFilter
  {
    ParseOfFixed(time);
    AnyIdMeans(LOG_IDS, v);
    InALogIff(v);
  }
}
