/** The Corefile lexer: one line into tokens, and a text into the tokens of its lines. */
module Lexer {
  import opened Records

  datatype Tok = Tok(text: string, line: nat)

  predicate IsBlank(c: char) {
    c == ' ' || c == '\t' || c == '\r'
  }

  predicate IsBrace(c: char) {
    c == '{' || c == '}'
  }

  predicate IsWord(c: char) {
    !IsBlank(c) && !IsBrace(c) && c != '"'
  }

  /** What a line is made of: nothing of it is outside a piece. */
  datatype Piece = Blank(c: char) | Brace(c: char) | Quoted(text: string) | Bare(text: string)

  function Render(p: Piece): string {
    match p
    case Blank(c) => [c]
    case Brace(c) => [c]
    case Quoted(text) => "\"" + text + "\""
    case Bare(text) => text
  }

  function RenderAll(ps: seq<Piece>): string {
    if ps == [] then "" else Render(ps[0]) + RenderAll(ps[1..])
  }

  ghost predicate PieceOk(p: Piece) {
    match p
    case Blank(c) => IsBlank(c)
    case Brace(c) => IsBrace(c)
    case Quoted(text) => '"' !in text
    case Bare(text) => text != "" && forall i :: 0 <= i < |text| ==> IsWord(text[i])
  }

  /** Bare words are maximal: two of them never touch. */
  ghost predicate Layout(ps: seq<Piece>)
    decreases |ps|
  {
    ps == [] || (PieceOk(ps[0]) && Layout(ps[1..]) && !(ps[0].Bare? && |ps| > 1 && ps[1].Bare?))
  }

  /** The tokens of a line, in order. */
  function Texts(ps: seq<Piece>): seq<string> {
    if ps == [] then []
    else Text(ps[0]) + Texts(ps[1..])
  }

  function Text(p: Piece): seq<string> {
    match p
    case Blank(_) => []
    case Brace(c) => [[c]]
    case Quoted(text) => [text]
    case Bare(text) => [text]
  }

  function WordEnd(s: string): (j: nat)
    ensures j <= |s| && (j < |s| ==> !IsWord(s[j])) && forall i :: 0 <= i < j ==> IsWord(s[i])
  {
    if s == "" || !IsWord(s[0]) then 0 else 1 + WordEnd(s[1..])
  }

  lemma QuotedPrefix(line: string, j: nat)
    requires line != "" && line[0] == '"' && j == IndexOf(line[1..], '"') && j < |line| - 1
    ensures '"' !in line[1..j + 1] && Render(Quoted(line[1..j + 1])) == line[..j + 2]
  {
    var tail := line[1..];
    assert tail[j] == line[j + 1] && tail[..j] == line[1..j + 1];
  }

  /** The piece a non-empty line begins with; nothing when a quoted string is not closed. */
  function FirstPiece(line: string): (p: Option<Piece>)
    requires line != ""
    ensures p.Some? ==> PieceOk(p.value) && Render(p.value) <= line && Render(p.value) != ""
  {
    if IsBlank(line[0]) then Some(Blank(line[0]))
    else if IsBrace(line[0]) then Some(Brace(line[0]))
    else if line[0] == '"' then
      var j := IndexOf(line[1..], '"');
      if j == |line| - 1 then None
      else
        QuotedPrefix(line, j);
        Some(Quoted(line[1..j + 1]))
    else Some(Bare(line[..WordEnd(line)]))
  }

  function Lex(line: string): Option<seq<Piece>>
    decreases |line|
  {
    if line == "" then Some([])
    else
      match FirstPiece(line)
      case None => None
      case Some(p) =>
        match Lex(line[|Render(p)|..])
        case None => None
        case Some(ps) => Some([p] + ps)
  }

  // ---- lossless, and the only reading ----

  lemma LexHead(line: string)
    ensures Lex(line).Some? && line != "" ==> Lex(line).value != [] && FirstPiece(line) == Some(Lex(line).value[0])
    ensures Lex(line) == Some([]) ==> line == ""
  {
  }

  /** One piece in front of a layout, when two bare words do not meet. */
  lemma LayoutCons(p: Piece, ps: seq<Piece>)
    requires PieceOk(p) && Layout(ps) && !(p.Bare? && ps != [] && ps[0].Bare?)
    ensures Layout([p] + ps) && RenderAll([p] + ps) == Render(p) + RenderAll(ps)
  {
    assert ([p] + ps)[1..] == ps;
  }

  /** After a bare word the line goes on with something else. */
  lemma WordIsMaximal(line: string, p: Piece)
    requires line != "" && FirstPiece(line) == Some(p) && p.Bare? && line[|Render(p)|..] != ""
    ensures !IsWord(line[|Render(p)|..][0])
  {
  }

  /** The pieces found make up the line exactly. */
  lemma {:induction false} LexSound(line: string)
    requires Lex(line).Some?
    ensures Layout(Lex(line).value) && RenderAll(Lex(line).value) == line
    decreases |line|
  {
    if line != "" {
      var p := FirstPiece(line).value;
      var rest := line[|Render(p)|..];
      LexSound(rest);
      LexHead(rest);
      var ps := Lex(rest).value;
      if p.Bare? && ps != [] { WordIsMaximal(line, p); }
      LayoutCons(p, ps);
      assert Render(p) + rest == line;
    }
  }

  lemma RenderFirst(ps: seq<Piece>)
    requires Layout(ps) && ps != []
    ensures RenderAll(ps) != "" && (ps[0].Bare? <==> IsWord(RenderAll(ps)[0]))
  {
  }

  lemma QuotedRendered(text: string, rest: string)
    requires '"' !in text
    ensures FirstPiece(Render(Quoted(text)) + rest) == Some(Quoted(text))
  {
    var line := Render(Quoted(text)) + rest;
    var tail := text + "\"" + rest;
    assert line[1..] == tail && tail[|text|] == '"';
    forall i | 0 <= i < |text| ensures tail[i] != '"' { assert tail[i] == text[i]; }
    assert IndexOf(tail, '"') == |text|;
    assert line[1..|text| + 1] == text;
  }

  lemma BareRendered(text: string, rest: string)
    requires PieceOk(Bare(text)) && (rest == "" || !IsWord(rest[0]))
    ensures FirstPiece(text + rest) == Some(Bare(text))
  {
    var line := text + rest;
    assert line[0] == text[0] && IsWord(line[0]);
    forall i | 0 <= i < |text| ensures IsWord(line[i]) { assert line[i] == text[i]; }
    if rest != "" { assert line[|text|] == rest[0]; }
    assert WordEnd(line) == |text|;
    assert line[..|text|] == text;
  }

  lemma FirstPieceRendered(p: Piece, rest: string)
    requires PieceOk(p) && (p.Bare? ==> rest == "" || !IsWord(rest[0]))
    ensures FirstPiece(Render(p) + rest) == Some(p)
  {
    match p
    case Blank(_) =>
    case Brace(_) =>
    case Quoted(text) => QuotedRendered(text, rest);
    case Bare(text) => BareRendered(text, rest);
  }

  /** Any layout is read back as itself. */
  lemma {:induction false} LexComplete(ps: seq<Piece>)
    requires Layout(ps)
    ensures Lex(RenderAll(ps)) == Some(ps)
    decreases |ps|
  {
    if ps != [] {
      var rest := RenderAll(ps[1..]);
      LexComplete(ps[1..]);
      if |ps| > 1 { RenderFirst(ps[1..]); }
      FirstPieceRendered(ps[0], rest);
      var line := Render(ps[0]) + rest;
      assert line[|Render(ps[0])|..] == rest;
      assert [ps[0]] + ps[1..] == ps;
    }
  }

  /** Lexing is exact: it answers the one layout that spells the line, and fails exactly when there is none. */
  lemma LexExactly(line: string, ps: seq<Piece>)
    ensures Lex(line) == Some(ps) <==> Layout(ps) && RenderAll(ps) == line
  {
    if Lex(line) == Some(ps) { LexSound(line); }
    if Layout(ps) && RenderAll(ps) == line { LexComplete(ps); }
  }

  // ---- the loop ----

  function Stamp(texts: seq<string>, line: nat): seq<Tok> {
    seq(|texts|, i requires 0 <= i < |texts| => Tok(texts[i], line))
  }

  /** The piece that begins at position i, scanned from there. */
  method ScanPiece(line: string, i: nat) returns (p: Option<Piece>)
    requires i < |line|
    ensures p == FirstPiece(line[i..])
  {
    if IsBlank(line[i]) {
      return Some(Blank(line[i]));
    }
    if IsBrace(line[i]) {
      return Some(Brace(line[i]));
    }
    if line[i] == '"' {
      var j := i + 1;
      while j < |line| && line[j] != '"'
        invariant i + 1 <= j <= |line|
        invariant forall k :: i + 1 <= k < j ==> line[k] != '"'
      {
        j := j + 1;
      }
      QuoteFound(line, i, j);
      if j >= |line| {
        return None;
      }
      return Some(Quoted(line[i + 1..j]));
    }
    var j := i;
    while j < |line| && IsWord(line[j])
      invariant i <= j <= |line|
      invariant forall k :: i <= k < j ==> IsWord(line[k])
    {
      j := j + 1;
    }
    WordFound(line, i, j);
    return Some(Bare(line[i..j]));
  }

  function Prepend<T>(done: seq<T>, rest: Option<seq<T>>): Option<seq<T>> {
    match rest
    case None => None
    case Some(ts) => Some(done + ts)
  }

  lemma PrependTwice<T>(xs: seq<T>, ys: seq<T>, rest: Option<seq<T>>)
    ensures Prepend(xs, Prepend(ys, rest)) == Prepend(xs + ys, rest)
  {
    if rest.Some? { Assoc(xs, ys, rest.value); }
  }

  lemma PrependNone<T>(done: seq<T>, rest: Option<seq<T>>)
    ensures Prepend([], rest) == rest && Prepend(done, Some([])) == Some(done)
  {
    assert done + [] == done;
    if rest.Some? { assert [] + rest.value == rest.value; }
  }

  /** The tokens of what is left of a line. */
  function Tokenized(rest: string, n: nat): Option<seq<Tok>> {
    match Lex(rest)
    case None => None
    case Some(ps) => Some(Stamp(Texts(ps), n))
  }

  lemma StampCons(p: Piece, ps: seq<Piece>, n: nat)
    ensures Stamp(Texts([p] + ps), n) == Stamp(Text(p), n) + Stamp(Texts(ps), n)
  {
  }

  lemma TokenizedStep(rest: string, n: nat, p: Piece)
    requires rest != "" && FirstPiece(rest) == Some(p)
    ensures Tokenized(rest, n) == Prepend(Stamp(Text(p), n), Tokenized(rest[|Render(p)|..], n))
  {
    var more := Lex(rest[|Render(p)|..]);
    if more.Some? { StampCons(p, more.value, n); }
  }

  /** The piece that begins at position i, and what it leaves to be tokenized. */
  method NextPiece(line: string, i: nat, n: nat) returns (p: Option<Piece>)
    requires i < |line|
    ensures p.None? ==> Tokenized(line[i..], n) == None
    ensures p.Some? ==> i < i + |Render(p.value)| <= |line|
    ensures p.Some? ==>
              Tokenized(line[i..], n) == Prepend(Stamp(Text(p.value), n), Tokenized(line[i + |Render(p.value)|..], n))
  {
    p := ScanPiece(line, i);
    if p.Some? {
      TokenizedStep(line[i..], n, p.value);
      assert line[i..][|Render(p.value)|..] == line[i + |Render(p.value)|..];
    }
  }

  method LexLine(line: string, lineNum: nat) returns (toks: Option<seq<Tok>>)
    ensures toks == Tokenized(line, lineNum)
  {
    var out: seq<Tok> := [];
    var i := 0;
    assert line[0..] == line;
    PrependNone(out, Tokenized(line, lineNum));
    while i < |line|
      invariant 0 <= i <= |line|
      invariant Prepend(out, Tokenized(line[i..], lineNum)) == Tokenized(line, lineNum)
    {
      var p := NextPiece(line, i, lineNum);
      if p.None? {
        return None;
      }
      var more := Stamp(Text(p.value), lineNum);
      i := i + |Render(p.value)|;
      PrependTwice(out, more, Tokenized(line[i..], lineNum));
      out := out + more;
    }
    assert line[i..] == "" && Stamp([], lineNum) == [];
    PrependNone(out, None);
    toks := Some(out);
  }

  lemma QuoteFound(line: string, i: nat, j: nat)
    requires i < j <= |line| && line[i] == '"' && (forall k :: i + 1 <= k < j ==> line[k] != '"')
             && (j < |line| ==> line[j] == '"')
    ensures FirstPiece(line[i..]) == if j == |line| then None else Some(Quoted(line[i + 1..j]))
    ensures j == |line| ==> Lex(line[i..]) == None
  {
    var rest := line[i..];
    assert rest[1..] == line[i + 1..];
    forall k | 0 <= k < j - i - 1 ensures rest[1..][k] != '"' { assert rest[1..][k] == line[i + 1 + k]; }
    assert IndexOf(rest[1..], '"') == j - i - 1;
    assert rest[1..j - i] == line[i + 1..j];
  }

  lemma WordFound(line: string, i: nat, j: nat)
    requires i <= j <= |line| && i < |line| && IsWord(line[i])
    requires (forall k :: i <= k < j ==> IsWord(line[k])) && (j < |line| ==> !IsWord(line[j]))
    ensures FirstPiece(line[i..]) == Some(Bare(line[i..j])) && i < j
  {
    var rest := line[i..];
    forall k | 0 <= k < j - i ensures IsWord(rest[k]) { assert rest[k] == line[i + k]; }
    assert WordEnd(rest) == j - i;
    assert rest[..j - i] == line[i..j];
  }

  // ---- a whole text ----

  function DropCR(s: string): string {
    if s != "" && s[|s| - 1] == '\r' then s[..|s| - 1] else s
  }

  /** The scanner's lines: split at newlines, one trailing carriage return dropped, no empty line at the very end. */
  function Lines(text: string): seq<string>
    decreases |text|
  {
    if text == "" then []
    else
      var j := IndexOf(text, '\n');
      if j == |text| then [DropCR(text)] else [DropCR(text[..j])] + Lines(text[j + 1..])
  }

  /** Everything from the first hash on is a comment, even inside quotes. */
  function StripComment(line: string): string {
    line[..IndexOf(line, '#')]
  }

  /** The token texts of a sequence of lines, or nothing when some line does not lex. */
  function LineTexts(lines: seq<string>): Option<seq<string>> {
    if lines == [] then Some([])
    else
      match (LineTexts(lines[..|lines| - 1]), Lex(StripComment(lines[|lines| - 1])))
      case (Some(ts), Some(ps)) => Some(ts + Texts(ps))
      case _ => None
  }

  function TextsOf(toks: seq<Tok>): seq<string> {
    seq(|toks|, i requires 0 <= i < |toks| => toks[i].text)
  }

  lemma StampTexts(toks: seq<Tok>, ts: seq<string>, n: nat)
    ensures TextsOf(toks + Stamp(ts, n)) == TextsOf(toks) + ts
  {
  }

  method Tokenize(lines: seq<string>) returns (toks: Option<seq<Tok>>)
    ensures toks.None? <==> LineTexts(lines).None?
    ensures toks.Some? ==> TextsOf(toks.value) == LineTexts(lines).value
  {
    var out: seq<Tok> := [];
    assert lines[..0] == [] && TextsOf(out) == [];
    for i := 0 to |lines|
      invariant LineTexts(lines[..i]) == Some(TextsOf(out))
    {
      assert lines[..i + 1][..i] == lines[..i];
      var more := LexLine(StripComment(lines[i]), i + 1);
      if more.None? {
        NoTexts(lines, i + 1);
        return None;
      }
      StampTexts(out, Texts(Lex(StripComment(lines[i])).value), i + 1);
      out := out + more.value;
    }
    assert lines[..|lines|] == lines;
    toks := Some(out);
  }

  lemma {:induction false} NoTexts(lines: seq<string>, n: nat)
    requires n <= |lines| && LineTexts(lines[..n]).None?
    ensures LineTexts(lines).None?
    decreases |lines|
  {
    if n == |lines| {
      assert lines[..n] == lines;
    } else {
      assert lines[..|lines| - 1][..n] == lines[..n];
      NoTexts(lines[..|lines| - 1], n);
    }
  }

  // ---- laws of the text level ----

  /** A hash and whatever follows it do not matter, and without a hash nothing is lost. */
  lemma CommentIgnored(line: string, text: string)
    ensures StripComment(line + "#" + text) == StripComment(line)
    ensures '#' !in line ==> StripComment(line) == line
  {
    var long := line + "#" + text;
    var j := IndexOf(line, '#');
    forall i | 0 <= i < j ensures long[i] != '#' { assert long[i] == line[i]; }
    assert long[j] == '#';
    assert IndexOf(long, '#') == j;
    assert long[..j] == line[..j];
  }

  /** The text of one line, up to its newline. */
  lemma LinesExactly(line: string, rest: string)
    requires '\n' !in line
    ensures Lines(line + "\n" + rest) == [DropCR(line)] + Lines(rest)
    ensures Lines(line) == if line == "" then [] else [DropCR(line)]
    ensures line != "" && line[|line| - 1] != '\r' ==> Lines(line) == [line]
    ensures line == "" || line[|line| - 1] != '\r' ==> Lines(line + "\n" + rest) == [line] + Lines(rest)
  {
    var text := line + "\n" + rest;
    forall i | 0 <= i < |line| ensures text[i] != '\n' { assert text[i] == line[i]; }
    assert text[|line|] == '\n';
    assert IndexOf(text, '\n') == |line|;
    assert text[..|line|] == line && text[|line| + 1..] == rest;
    assert IndexOf(line, '\n') == |line|;
  }

  /** One carriage return before the newline belongs to the line break. */
  lemma CarriageReturn(line: string, rest: string)
    requires '\n' !in line
    ensures Lines(line + "\r" + "\n" + rest) == [line] + Lines(rest)
  {
    LinesExactly(line + "\r", rest);
    DropsCR(line);
  }

  lemma DropsCR(line: string)
    ensures DropCR(line + "\r") == line
  {
  }

  /** The tokens of one line. */
  lemma OneLine(line: string)
    ensures LineTexts([line]) ==
            match Lex(StripComment(line)) case None => None case Some(ps) => Some(Texts(ps))
  {
    assert [line][..0] == [];
    assert LineTexts([]) == Some([]);
    if Lex(StripComment(line)).Some? {
      var ts := Texts(Lex(StripComment(line)).value);
      assert [] + ts == ts;
    }
  }

  /** Lines are read one after the other: a text fails exactly when one of its lines does. */
  lemma {:induction false} LinesAppend(xs: seq<string>, ys: seq<string>)
    ensures LineTexts(xs + ys) ==
            if LineTexts(xs).Some? && LineTexts(ys).Some? then Some(LineTexts(xs).value + LineTexts(ys).value) else None
    decreases |ys|
  {
    if ys == [] {
      assert xs + ys == xs;
      if LineTexts(xs).Some? { assert LineTexts(xs).value + [] == LineTexts(xs).value; }
    } else {
      var front, last := ys[..|ys| - 1], ys[|ys| - 1];
      LinesAppend(xs, front);
      assert (xs + ys)[..|xs + ys| - 1] == xs + front;
      if LineTexts(xs).Some? && LineTexts(ys).Some? {
        Assoc(LineTexts(xs).value, LineTexts(front).value, Texts(Lex(StripComment(last)).value));
      }
    }
  }

  /** A character that a bare word may hold. */
  predicate Ordinary(c: char) {
    c != ' ' && c != '\t' && c != '\r' && c != '{' && c != '}' && c != '"'
  }

  ghost predicate OrdinaryWord(s: string) {
    s != "" && forall i :: 0 <= i < |s| ==> Ordinary(s[i])
  }

  lemma PairLexes(a: Piece, b: Piece, c: Piece)
    requires PieceOk(a) && PieceOk(b) && PieceOk(c) && !b.Bare?
    ensures Lex(Render(a) + Render(b) + Render(c)) == Some([a, b, c])
  {
    var ps := [a, b, c];
    assert ps[1..] == [b, c] && [b, c][1..] == [c] && [c][1..] == [];
    assert RenderAll([c]) == Render(c) + "" == Render(c);
    assert RenderAll([b, c]) == Render(b) + Render(c);
    Assoc(Render(a), Render(b), Render(c));
    assert Layout([c]);
    assert Layout([b, c]);
    LexComplete(ps);
  }

  lemma TextsOfThree(a: Piece, b: Piece, c: Piece)
    ensures Texts([a, b, c]) == Text(a) + (Text(b) + Text(c))
  {
    assert [a, b, c][1..] == [b, c] && [b, c][1..] == [c] && [c][1..] == [];
    assert Texts([c]) == Text(c) + [] == Text(c);
    assert Texts([b, c]) == Text(b) + Text(c);
  }

  /** Two words with a space, a tab or a carriage return between them are two tokens. */
  lemma WordsSplit(u: string, v: string, blank: char)
    requires OrdinaryWord(u) && OrdinaryWord(v) && (blank == ' ' || blank == '\t' || blank == '\r')
    ensures var lexed := Lex(u + [blank] + v); lexed.Some? && Texts(lexed.value) == [u, v]
  {
    PairLexes(Bare(u), Blank(blank), Bare(v));
    TextsOfThree(Bare(u), Blank(blank), Bare(v));
  }

  /** A brace ends a word, is a token of its own, and begins nothing. */
  lemma BraceSplits(u: string, v: string, brace: char)
    requires OrdinaryWord(u) && OrdinaryWord(v) && (brace == '{' || brace == '}')
    ensures var lexed := Lex(u + [brace] + v); lexed.Some? && Texts(lexed.value) == [u, [brace], v]
  {
    PairLexes(Bare(u), Brace(brace), Bare(v));
    TextsOfThree(Bare(u), Brace(brace), Bare(v));
  }

  /** What stands between two quotes is one token, whatever else it holds; it ends a word, and another may follow. */
  lemma QuotesSplit(u: string, quoted: string, v: string)
    requires OrdinaryWord(u) && OrdinaryWord(v) && '"' !in quoted
    ensures var lexed := Lex(u + ("\"" + quoted + "\"") + v); lexed.Some? && Texts(lexed.value) == [u, quoted, v]
  {
    PairLexes(Bare(u), Quoted(quoted), Bare(v));
    TextsOfThree(Bare(u), Quoted(quoted), Bare(v));
  }

  /** A quote that is not closed is refused. */
  lemma OpenQuoteFails(u: string, open: string)
    requires OrdinaryWord(u) && '"' !in open
    ensures Lex(u + "\"" + open) == None
  {
    var line := u + "\"" + open;
    var rest := "\"" + open;
    assert line == u + rest && rest[1..] == open;
    assert IndexOf(open, '"') == |open|;
    BareRendered(u, rest);
    assert line[|u|..] == rest;
    assert FirstPiece(rest) == None;
    assert Lex(rest) == None;
  }
}
