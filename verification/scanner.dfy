/** The scanner of src/jlox/scanner.ts: source text to a token sequence
    ending in EOF. The scanner's mutable fields (`start`, `current`,
    `line`, `colS`, `colE`, `tokens`) become a `ScanState` value threaded
    through pure functions. `spans` records, for every token added, the
    `[start, current)` slice its lexeme was cut from. */
module Scanner {
  import opened Basics
  import opened Tokens

  datatype ScanState = ScanState(
    current: nat,
    line: nat,
    colS: nat,
    colE: nat,
    tokens: seq<Token>,
    spans: seq<(nat, nat)>,
    diags: seq<Diagnostic>)

  /** `Scanned` is a finished token list; `Failed` is the string the scanner
      throws for an unterminated string or tag literal. */
  datatype ScanResult =
    | Scanned(tokens: seq<Token>, spans: seq<(nat, nat)>, diags: seq<Diagnostic>)
    | Failed(message: string)

  datatype Step = Next(st: ScanState) | Abort(message: string)

  // ---------------------------------------------------------------------
  // Character classes and the keyword table

  predicate IsDigit(c: char) { '0' <= c <= '9' }

  predicate IsAlpha(c: char) { 'a' <= c <= 'z' || 'A' <= c <= 'Z' || c == '_' }

  predicate IsAlphaNumeric(c: char) { IsAlpha(c) || IsDigit(c) }

  /** The reserved words in the order the source registers them. */
  const KeywordTable: seq<(string, TokenType)> := [
    ("and", AND), ("class", CLASS), ("else", ELSE), ("false", FALSE),
    ("for", FOR), ("fun", FUN), ("if", IF), ("nil", NIL), ("or", OR),
    ("print", PRINT), ("return", RETURN), ("super", SUPER), ("this", THIS),
    ("true", TRUE), ("var", VAR), ("while", WHILE), ("break", BREAK)]

  /** `keywords.get(text)`, scanning the table from entry `i`. */
  function LookupKeyword(text: string, i: nat): (r: Option<TokenType>)
    ensures r.Some? ==> r.value != EOF && r.value != IDENTIFIER
    decreases |KeywordTable| - i
  {
    if i >= |KeywordTable| then None
    else if KeywordTable[i].0 == text then Some(KeywordTable[i].1)
    else LookupKeyword(text, i + 1)
  }

  /** The kind an identifier-shaped lexeme gets: its keyword, or IDENTIFIER. */
  function IdentifierKind(text: string): TokenType {
    match LookupKeyword(text, 0)
    case Some(k) => k
    case None => IDENTIFIER
  }

  /** The table has 17 entries with pairwise distinct words and pairwise
      distinct kinds, none of them IDENTIFIER or EOF. */
  lemma KeywordTableShape()
    ensures |KeywordTable| == 17
    ensures forall i, j | 0 <= i < j < |KeywordTable| :: KeywordTable[i].0 != KeywordTable[j].0
    ensures forall i, j | 0 <= i < j < |KeywordTable| :: KeywordTable[i].1 != KeywordTable[j].1
    ensures forall i | 0 <= i < |KeywordTable| :: KeywordTable[i].1 !in {IDENTIFIER, EOF}
  {
  }

  /** An exact hit in the table gives that entry's kind; anything else is an
      IDENTIFIER. */
  lemma {:induction false} IdentifierKindSpec(text: string)
    ensures forall i | 0 <= i < |KeywordTable| && KeywordTable[i].0 == text :: IdentifierKind(text) == KeywordTable[i].1
    ensures (forall i | 0 <= i < |KeywordTable| :: KeywordTable[i].0 != text) ==> IdentifierKind(text) == IDENTIFIER
  {
    KeywordTableShape();
    LookupFinds(text, 0);
  }

  lemma {:induction false} LookupFinds(text: string, i: nat)
    requires forall a, b | 0 <= a < b < |KeywordTable| :: KeywordTable[a].0 != KeywordTable[b].0
    ensures forall j | i <= j < |KeywordTable| && KeywordTable[j].0 == text :: LookupKeyword(text, i) == Some(KeywordTable[j].1)
    ensures (forall j | i <= j < |KeywordTable| :: KeywordTable[j].0 != text) ==> LookupKeyword(text, i) == None
    decreases |KeywordTable| - i
  {
    if i < |KeywordTable| {
      LookupFinds(text, i + 1);
    }
  }

  /** The one-character token for an operator character that may double
      up with a following `=`. */
  function SingleKind(c: char): TokenType
    requires c in "!=<>"
  {
    if c == '!' then BANG else if c == '=' then EQUAL else if c == '<' then LESS else GREATER
  }

  /** The two-character token `c=`. */
  function DoubleKind(c: char): TokenType
    requires c in "!=<>"
  {
    if c == '!' then BANG_EQUAL else if c == '=' then EQUAL_EQUAL
    else if c == '<' then LESS_EQUAL else GREATER_EQUAL
  }

  /** Tokens that are always exactly one character. */
  function PunctuationKind(c: char): Option<TokenType> {
    match c
    case '?' => Some(QUESTION_MARK)
    case ':' => Some(COLON)
    case '(' => Some(LEFT_PAREN)
    case ')' => Some(RIGHT_PAREN)
    case '{' => Some(LEFT_BRACE)
    case '}' => Some(RIGHT_BRACE)
    case ',' => Some(COMMA)
    case '.' => Some(DOT)
    case '-' => Some(MINUS)
    case '+' => Some(PLUS)
    case ';' => Some(SEMICOLON)
    case '*' => Some(STAR)
    case _ => None
  }

  // ---------------------------------------------------------------------
  // Numeric value of a decimal lexeme

  function DigitValue(c: char): nat
    requires IsDigit(c)
  {
    (c as int - '0' as int) as nat
  }

  function DigitsValue(ds: string): nat
    requires forall k | 0 <= k < |ds| :: IsDigit(ds[k])
  {
    if |ds| == 0 then 0 else DigitsValue(ds[..|ds| - 1]) * 10 + DigitValue(ds[|ds| - 1])
  }

  function Pow10(n: nat): (r: nat)
    ensures r >= 1
  {
    if n == 0 then 1 else 10 * Pow10(n - 1)
  }

  /** The value `+text` has for a lexeme `int` or `int.frac`. */
  function DecimalValue(intDigits: string, fracDigits: string): real
    requires forall k | 0 <= k < |intDigits| :: IsDigit(intDigits[k])
    requires forall k | 0 <= k < |fracDigits| :: IsDigit(fracDigits[k])
  {
    DigitsValue(intDigits) as real + DigitsValue(fracDigits) as real / Pow10(|fracDigits|) as real
  }

  // ---------------------------------------------------------------------
  // Well-formedness of a partial scan

  /** Every token so far was cut from `src` at its span, spans are non-empty,
      lie left of `bound` and follow one another without overlap, and no
      token is EOF. */
  ghost predicate LexedUpTo(src: string, tokens: seq<Token>, spans: seq<(nat, nat)>, bound: nat) {
    && bound <= |src|
    && |spans| == |tokens|
    && (forall i | 0 <= i < |spans| :: spans[i].0 < spans[i].1 <= bound)
    && (forall i | 0 <= i < |spans| :: tokens[i].lexeme == src[spans[i].0..spans[i].1])
    && (forall i | 0 <= i < |spans| - 1 :: spans[i].1 <= spans[i + 1].0)
    && (forall i | 0 <= i < |tokens| :: tokens[i].kind != EOF)
  }

  ghost predicate Lexed(src: string, st: ScanState) {
    LexedUpTo(src, st.tokens, st.spans, st.current)
  }

  // ---------------------------------------------------------------------
  // The primitive moves of the scanner

  function Peek(src: string, i: nat): char {
    if i >= |src| then '\0' else src[i]
  }

  function PeekNext(src: string, i: nat): char {
    if i + 1 >= |src| then '\0' else src[i + 1]
  }

  function Advance(st: ScanState): ScanState {
    st.(current := st.current + 1, colE := st.colE + 1)
  }

  /** `n` calls of `advance()` in a row, none crossing a newline. */
  function AdvanceTo(st: ScanState, end: nat): ScanState
    requires st.current <= end
  {
    st.(current := end, colE := st.colE + (end - st.current))
  }

  /** `match(expected)`: consume the next character only if it is `expected`. */
  function Match(src: string, st: ScanState, expected: char): (r: (bool, ScanState))
    ensures r.0 <==> st.current < |src| && src[st.current] == expected
    ensures r.1 == if r.0 then Advance(st) else st
  {
    if st.current >= |src| then (false, st)
    else if src[st.current] != expected then (false, st)
    else (true, Advance(st))
  }

  /** `addToken`: the lexeme is the slice `[start, current)`. */
  function AddToken(src: string, start: nat, st: ScanState, kind: TokenType, lit: TokenLiteral): (r: ScanState)
    requires start < st.current <= |src|
    requires LexedUpTo(src, st.tokens, st.spans, start)
    requires kind != EOF
    ensures Lexed(src, r)
    ensures r.current == st.current && r.line == st.line && r.diags == st.diags
    ensures |r.tokens| == |st.tokens| + 1 && r.tokens[..|st.tokens|] == st.tokens
    ensures r.tokens[|st.tokens|].kind == kind && r.tokens[|st.tokens|].literal == lit
    ensures r.tokens[|st.tokens|].lexeme == src[start..st.current]
    ensures r.spans == st.spans + [(start, st.current)]
  {
    var tok := Token(kind, src[start..st.current], lit, Loc(st.line, st.colS, st.colE));
    st.(tokens := st.tokens + [tok], spans := st.spans + [(start, st.current)])
  }

  // ---------------------------------------------------------------------
  // Sub-scanners

  /** Where a line comment starting at `i` stops: at the next newline, which
      is not consumed, or at the end. */
  function CommentEnd(src: string, i: nat): (j: nat)
    requires i <= |src|
    ensures i <= j <= |src|
    ensures j == |src| || src[j] == '\n'
    ensures forall k | i <= k < j :: src[k] != '\n'
    decreases |src| - i
  {
    if Peek(src, i) != '\n' && i < |src| then CommentEnd(src, i + 1) else i
  }

  /** Where the maximal digit run starting at `i` stops. */
  function DigitsEnd(src: string, i: nat): (j: nat)
    requires i <= |src|
    ensures i <= j <= |src|
    ensures forall k | i <= k < j :: IsDigit(src[k])
    ensures j == |src| || !IsDigit(src[j])
    decreases |src| - i
  {
    if IsDigit(Peek(src, i)) then DigitsEnd(src, i + 1) else i
  }

  /** Where the maximal alphanumeric run starting at `i` stops. */
  function AlnumEnd(src: string, i: nat): (j: nat)
    requires i <= |src|
    ensures i <= j <= |src|
    ensures forall k | i <= k < j :: IsAlphaNumeric(src[k])
    ensures j == |src| || !IsAlphaNumeric(src[j])
    decreases |src| - i
  {
    if IsAlphaNumeric(Peek(src, i)) then AlnumEnd(src, i + 1) else i
  }

  /** Whether `number()` takes a fraction after an integer part ending at
      `i`: only when `.` is immediately followed by a digit. */
  predicate TakesFraction(src: string, i: nat) {
    Peek(src, i) == '.' && IsDigit(PeekNext(src, i))
  }

  /** The end of the number lexeme starting at `start`: a maximal digit
      run, followed by `.` and a second maximal digit run only when the `.`
      is followed by a digit. So the lexeme holds at most one `.`, never at
      either end, is never followed by a digit, and a dot-free lexeme is
      never followed by `.` and a digit. */
  function NumberEnd(src: string, start: nat): (end: nat)
    requires start < |src| && IsDigit(src[start])
    ensures start < end <= |src|
    ensures end == |src| || !IsDigit(src[end])
    ensures forall k | start <= k < end :: IsDigit(src[k]) || (src[k] == '.' && start < k && k + 1 < end)
    ensures forall k, m | start <= k < m < end :: !(src[k] == '.' && src[m] == '.')
    ensures (forall k | start <= k < end :: src[k] != '.') ==> !TakesFraction(src, end)
  {
    var intEnd := DigitsEnd(src, start + 1);
    if TakesFraction(src, intEnd) then DigitsEnd(src, intEnd + 2) else intEnd
  }

  /** The newline count of `s`. */
  function Newlines(s: string): nat {
    if |s| == 0 then 0 else Newlines(s[..|s| - 1]) + (if s[|s| - 1] == '\n' then 1 else 0)
  }

  lemma NewlinesSplit(src: string, i: nat, j: nat)
    requires i < j <= |src|
    ensures Newlines(src[i..j]) == (if src[i] == '\n' then 1 else 0) + Newlines(src[i + 1..j])
    decreases j - i
  {
    if j == i + 1 {
      assert src[i + 1..j] == [];
      assert src[i..j][..0] == [];
    } else {
      NewlinesSplit(src, i, j - 1);
      assert src[i..j][..j - i - 1] == src[i..j - 1];
      assert src[i + 1..j][..j - i - 2] == src[i + 1..j - 1];
    }
  }

  /** The body loop shared by `string()` and `tag()`: advance to the closing
      delimiter or to the end; every newline bumps `line` and resets both
      columns to 1. */
  function QuotedBody(src: string, st: ScanState, close: char): (r: ScanState)
    requires st.current <= |src|
    ensures st.current <= r.current <= |src|
    ensures r.current == |src| || src[r.current] == close
    ensures forall k | st.current <= k < r.current :: src[k] != close
    ensures r.line == st.line + Newlines(src[st.current..r.current])
    ensures r.tokens == st.tokens && r.spans == st.spans && r.diags == st.diags
    decreases |src| - st.current
  {
    if Peek(src, st.current) != close && st.current < |src| then
      var nl := src[st.current] == '\n';
      var st1 := if nl then st.(line := st.line + 1, colS := 1, colE := 1) else st;
      var r := QuotedBody(src, Advance(st1), close);
      NewlinesSplit(src, st.current, r.current);
      r
    else st
  }

  /** `number()`: the literal is the lexeme's decimal value. */
  function ScanNumber(src: string, start: nat, st: ScanState): (r: ScanState)
    requires start < st.current == start + 1 <= |src| && IsDigit(src[start])
    requires LexedUpTo(src, st.tokens, st.spans, start)
    ensures Lexed(src, r) && r.current == NumberEnd(src, start)
    ensures |r.tokens| == |st.tokens| + 1 && r.tokens[..|st.tokens|] == st.tokens
    ensures r.tokens[|st.tokens|].kind == NUMBER && r.tokens[|st.tokens|].lexeme == src[start..r.current]
    ensures r.line == st.line && r.diags == st.diags
  {
    var intEnd := DigitsEnd(src, st.current);
    var end := NumberEnd(src, start);
    var fracDigits := if end == intEnd then "" else src[intEnd + 1..end];
    var lit := NumLit(DecimalValue(src[start..intEnd], fracDigits));
    AddToken(src, start, AdvanceTo(st, end), NUMBER, lit)
  }

  /** `identifier()`: a maximal alphanumeric run, classified by the keyword
      table. */
  function ScanIdentifier(src: string, start: nat, st: ScanState): (r: ScanState)
    requires start < st.current == start + 1 <= |src| && IsAlpha(src[start])
    requires LexedUpTo(src, st.tokens, st.spans, start)
    ensures Lexed(src, r) && r.current > start
    ensures |r.tokens| == |st.tokens| + 1 && r.tokens[..|st.tokens|] == st.tokens
    ensures r.tokens[|st.tokens|].lexeme == src[start..r.current]
    ensures r.tokens[|st.tokens|].kind == IdentifierKind(src[start..r.current])
    ensures r.line == st.line && r.diags == st.diags
    ensures forall k | start <= k < r.current :: IsAlphaNumeric(src[k])
    ensures r.current == |src| || !IsAlphaNumeric(src[r.current])
  {
    var end := AlnumEnd(src, st.current);
    AddToken(src, start, AdvanceTo(st, end), IdentifierKind(src[start..end]), NoLiteral)
  }

  /** `string()` (close `"`) and `tag()` (close `'`): the literal value is
      the raw text between the delimiters, with no escapes; reaching the end
      first fails. */
  function ScanQuoted(src: string, start: nat, st: ScanState, close: char, kind: TokenType, unterminated: string): (r: Step)
    requires start < st.current == start + 1 <= |src| && src[start] == close
    requires LexedUpTo(src, st.tokens, st.spans, start)
    requires kind == STRING || kind == TAG
    ensures r.Abort? <==> (forall k | start < k < |src| :: src[k] != close)
    ensures r.Abort? ==> r.message == unterminated
    ensures r.Next? ==>
              && Lexed(src, r.st)
              && start + 2 <= r.st.current <= |src|
              && src[r.st.current - 1] == close
              && (forall k | start < k < r.st.current - 1 :: src[k] != close)
              && |r.st.tokens| == |st.tokens| + 1 && r.st.tokens[..|st.tokens|] == st.tokens
              && r.st.tokens[|st.tokens|].kind == kind
              && r.st.tokens[|st.tokens|].lexeme == src[start..r.st.current]
              && r.st.tokens[|st.tokens|].literal == StrLit(src[start + 1..r.st.current - 1])
              && r.st.line == st.line + Newlines(src[start + 1..r.st.current - 1])
              && r.st.diags == st.diags
  {
    var a := QuotedBody(src, st, close);
    if a.current >= |src| then Abort(unterminated)
    else
      var b := Advance(a);
      assert b.tokens == st.tokens && b.spans == st.spans;
      var r := AddToken(src, start, b, kind, StrLit(src[start + 1..a.current]));
      assert r.current - 1 == a.current;
      Next(r)
  }

  // ---------------------------------------------------------------------
  // One token and the whole scan

  /** The operator and punctuation cases of `scanToken()`, including `/`
      which either starts a comment or is SLASH. */
  function ScanOperator(src: string, start: nat, st1: ScanState): (r: ScanState)
    requires start < st1.current == start + 1 <= |src|
    requires LexedUpTo(src, st1.tokens, st1.spans, start)
    requires PunctuationKind(src[start]).Some? || src[start] in "!=</>"
    ensures Lexed(src, r) && start < r.current && r.line == st1.line && r.diags == st1.diags
    ensures |st1.tokens| <= |r.tokens| <= |st1.tokens| + 1 && r.tokens[..|st1.tokens|] == st1.tokens
    ensures PunctuationKind(src[start]).Some? ==>
              && |r.tokens| == |st1.tokens| + 1 && r.current == start + 1
              && r.tokens[|st1.tokens|].kind == PunctuationKind(src[start]).value
    ensures src[start] in "!=<>" ==>
              var two := start + 1 < |src| && src[start + 1] == '=';
              && |r.tokens| == |st1.tokens| + 1
              && r.current == (if two then start + 2 else start + 1)
              && r.tokens[|st1.tokens|].kind == (if two then DoubleKind(src[start]) else SingleKind(src[start]))
    ensures src[start] == '/' ==>
              if start + 1 < |src| && src[start + 1] == '/' then
                && r.tokens == st1.tokens
                && (r.current == |src| || src[r.current] == '\n')
                && (forall k | start <= k < r.current :: src[k] != '\n')
              else
                && |r.tokens| == |st1.tokens| + 1 && r.current == start + 1
                && r.tokens[|st1.tokens|].kind == SLASH
  {
    var c := src[start];
    if PunctuationKind(c).Some? then
      AddToken(src, start, st1, PunctuationKind(c).value, NoLiteral)
    else if c in "!=<>" then
      var (two, st2) := Match(src, st1, '=');
      AddToken(src, start, st2, if two then DoubleKind(c) else SingleKind(c), NoLiteral)
    else
      var (comment, st2) := Match(src, st1, '/');
      if comment then AdvanceTo(st2, CommentEnd(src, st2.current))
      else AddToken(src, start, st1, SLASH, NoLiteral)
  }

  /** `scanToken()`: consume at least one character and add at most one
      token, never EOF. */
  function ScanToken(src: string, st: ScanState): (r: Step)
    requires st.current < |src| && Lexed(src, st)
    ensures r.Next? ==> Lexed(src, r.st) && st.current < r.st.current
    ensures r.Next? ==> |st.tokens| <= |r.st.tokens| <= |st.tokens| + 1
    ensures r.Next? ==> r.st.tokens[..|st.tokens|] == st.tokens
    ensures r.Abort? ==> src[st.current] in "\"'"
  {
    var start := st.current;
    var c := src[start];
    var st1 := Advance(st);
    if PunctuationKind(c).Some? || c in "!=</>" then
      Next(ScanOperator(src, start, st1))
    else if c == ' ' || c == '\r' || c == '\t' then
      Next(st1)
    else if c == '\n' then
      Next(st1.(line := st1.line + 1, colS := 1, colE := 1))
    else if c == '"' then
      ScanQuoted(src, start, st1, '"', STRING, "Unterminated string.")
    else if c == '\'' then
      ScanQuoted(src, start, st1, '\'', TAG, "Unterminated tag.")
    else if IsDigit(c) then
      Next(ScanNumber(src, start, st1))
    else if IsAlpha(c) then
      Next(ScanIdentifier(src, start, st1))
    else
      // Unrecognised character: reported, skipped, scanning goes on.
      Next(st1.(diags := st1.diags + [Diagnostic(Loc(st1.line, start, st1.current), "")]))
  }

  /** Space, tab and CR emit nothing; a newline emits nothing, bumps `line`
      and resets both columns to 1. */
  lemma LayoutEmitsNothing(src: string, st: ScanState)
    requires st.current < |src| && Lexed(src, st) && src[st.current] in " \r\t\n"
    ensures var r := ScanToken(src, st);
            && r.Next? && r.st.tokens == st.tokens && r.st.current == st.current + 1
            && r.st.line == st.line + (if src[st.current] == '\n' then 1 else 0)
            && (src[st.current] == '\n' ==> r.st.colS == 1 && r.st.colE == 1)
  {
  }

  /** A character no rule accepts emits no token: it is reported at its
      offset and skipped. */
  lemma UnrecognisedIsReported(src: string, st: ScanState)
    requires st.current < |src| && Lexed(src, st)
    requires var c := src[st.current];
             PunctuationKind(c).None? && c !in "!=</> \r\t\n\"'" && !IsDigit(c) && !IsAlpha(c)
    ensures var r := ScanToken(src, st);
            && r.Next? && r.st.tokens == st.tokens && r.st.current == st.current + 1
            && r.st.diags == st.diags + [Diagnostic(Loc(st.line, st.current, st.current + 1), "")]
  {
  }

  /** The `scanTokens()` loop from a given state. */
  function ScanFrom(src: string, st: ScanState): (r: Step)
    requires Lexed(src, st)
    ensures r.Next? ==> Lexed(src, r.st) && r.st.current == |src|
    ensures r.Next? ==> |st.tokens| <= |r.st.tokens| && r.st.tokens[..|st.tokens|] == st.tokens
    decreases |src| - st.current
  {
    if st.current >= |src| then Next(st)
    else
      match ScanToken(src, st.(colS := st.colE))
      case Abort(msg) => Abort(msg)
      case Next(st') =>
        var r := ScanFrom(src, st');
        if r.Next? then
          PrefixOfPrefix(st.tokens, st'.tokens, r.st.tokens);
          r
        else r
  }

  /** Appending the EOF token to a scan that reached the end of the
      source keeps every lexed token in place. */
  lemma EofAppended(src: string, st: ScanState, eof: Token)
    requires Lexed(src, st) && st.current == |src| && eof.kind == EOF
    ensures var ts := st.tokens + [eof];
      && ts[..|ts| - 1] == st.tokens
      && LexedUpTo(src, ts[..|ts| - 1], st.spans, |src|)
  {
    var ts := st.tokens + [eof];
    assert ts[..|ts| - 1] == st.tokens;
  }

  lemma PrefixOfPrefix<T>(a: seq<T>, b: seq<T>, c: seq<T>)
    requires |a| <= |b| <= |c| && b[..|a|] == a && c[..|b|] == b
    ensures c[..|a|] == a
  {
    assert c[..|a|] == c[..|b|][..|a|];
  }

  /** `scanTokens()`: the output ends with exactly one EOF token, and every
      other token's lexeme is the slice of the source at its span, the spans
      running left to right without overlap. */
  function ScanTokens(src: string): (r: ScanResult)
    ensures r.Scanned? ==>
              && |r.tokens| >= 1
              && r.tokens[|r.tokens| - 1].kind == EOF
              && (forall i | 0 <= i < |r.tokens| - 1 :: r.tokens[i].kind != EOF)
              && |r.spans| == |r.tokens| - 1
              && (forall i | 0 <= i < |r.spans| :: r.spans[i].0 < r.spans[i].1 <= |src|)
              && (forall i | 0 <= i < |r.spans| :: r.tokens[i].lexeme == src[r.spans[i].0..r.spans[i].1])
              && (forall i | 0 <= i < |r.spans| - 1 :: r.spans[i].1 <= r.spans[i + 1].0)
  {
    match ScanFrom(src, ScanState(0, 1, 1, 1, [], [], []))
    case Abort(msg) => Failed(msg)
    case Next(st) =>
      var eof := Token(EOF, "", NoLiteral, Loc(st.line, st.colS, st.colE));
      EofAppended(src, st, eof);
      Scanned(st.tokens + [eof], st.spans, st.diags)
  }

}
