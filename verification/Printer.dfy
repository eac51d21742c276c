/**
 A printer for configurations, and the exact reach of the Corefile format: a configuration can be written down if and
 only if its strings avoid what the lexer cannot carry, and then the printer's text reads back as that configuration.
 */
module Printer {
  import opened Records
  import opened Lexer
  import opened Decimal
  import opened Corefile

  /** Text that survives quoting: no quote, no hash, no newline. */
  ghost predicate Plain(s: string) {
    '"' !in s && '#' !in s && '\n' !in s
  }

  /** A value the parser can be given: plain, and not the token that closes a block. */
  ghost predicate Writable(s: string) {
    Plain(s) && s != "}"
  }

  ghost predicate WritableNacos(n: Nacos) {
    Writable(n.addr) && Writable(n.namespace) && Writable(n.group) && Writable(n.prefix) && Writable(n.username)
      && Writable(n.password)
  }

  ghost predicate Representable(nums: Numbers, c: Config) {
    && Writable(c.listen) && Writable(c.api) && Writable(c.dsn) && WritableNacos(c.nacos)
    && Writable(c.interval) && nums.duration(c.interval) && Writable(c.prob) && nums.float(c.prob)
    && InInt64(c.workers) && InInt64(c.rateLimit)
  }

  // ---- printing ----

  datatype Line = Open(name: string) | Entry(key: string, val: string) | Close

  function LineText(l: Line): string {
    match l
    case Open(name) => name + " {"
    case Entry(key, val) => key + " \"" + val + "\""
    case Close => "}"
  }

  function LineTokens(l: Line): seq<string> {
    match l
    case Open(name) => [name, "{"]
    case Entry(key, val) => [key, val]
    case Close => ["}"]
  }

  function Bool(b: bool): string {
    if b then "true" else "false"
  }

  /** The value of one key, as text. */
  function ValueText(k: Key, c: Config): string {
    match k
    case Listen => c.listen
    case Workers => Itoa(c.workers)
    case Tcp => Bool(c.tcp)
    case Edns0 => Bool(c.edns0)
    case ApiListen => c.api
    case Dsn => c.dsn
    case Addr => c.nacos.addr
    case Namespace => c.nacos.namespace
    case Group => c.nacos.group
    case Prefix => c.nacos.prefix
    case Username => c.nacos.username
    case Password => c.nacos.password
    case Interval => c.interval
    case Prob => c.prob
    case RateLimit => Itoa(c.rateLimit)
  }

  function EntryLines(table: seq<(string, Key)>, c: Config): seq<Line> {
    if table == [] then [] else [Entry(table[0].0, ValueText(table[0].1, c))] + EntryLines(table[1..], c)
  }

  function SectionLines(name: string, b: Block, c: Config): seq<Line> {
    [Open(name)] + EntryLines(Keys(b), c) + [Close]
  }

  function SectionsLines(table: seq<(string, Block)>, c: Config): seq<Line> {
    if table == [] then [] else SectionLines(table[0].0, table[0].1, c) + SectionsLines(table[1..], c)
  }

  /** The whole configuration: every key of the main block, then every sub-block with every key of it. */
  function AllLines(c: Config): seq<Line> {
    [Open("dns-edge")] + EntryLines(Keys(MainBlock), c) + SectionsLines(SubBlocks(MainBlock), c) + [Close]
  }

  function Join(ls: seq<Line>): string {
    if ls == [] then "" else LineText(ls[0]) + "\n" + Join(ls[1..])
  }

  function Print(c: Config): string {
    Join(AllLines(c))
  }

  // ---- printed lines lex as intended ----

  ghost predicate WordText(s: string) {
    s != "" && Plain(s) && forall i :: 0 <= i < |s| ==> IsWord(s[i])
  }

  ghost predicate LineOk(l: Line) {
    match l
    case Open(name) => WordText(name)
    case Entry(key, val) => WordText(key) && Plain(val)
    case Close => true
  }

  lemma LinePlain(l: Line)
    requires LineOk(l)
    ensures '#' !in LineText(l) && '\n' !in LineText(l) && DropCR(LineText(l)) == LineText(l)
  {
  }

  function PiecesOf(l: Line): seq<Piece> {
    match l
    case Open(name) => [Bare(name), Blank(' '), Brace('{')]
    case Entry(key, val) => [Bare(key), Blank(' '), Quoted(val)]
    case Close => [Brace('}')]
  }

  lemma RenderThree(a: Piece, b: Piece, c: Piece)
    ensures RenderAll([a, b, c]) == Render(a) + Render(b) + Render(c)
  {
    assert [a, b, c][1..] == [b, c] && [b, c][1..] == [c] && [c][1..] == [];
    assert RenderAll([c]) == Render(c);
    assert RenderAll([b, c]) == Render(b) + Render(c);
  }

  lemma LayoutThree(a: Piece, b: Piece, c: Piece)
    requires PieceOk(a) && PieceOk(b) && PieceOk(c) && b.Blank?
    ensures Layout([a, b, c])
  {
    assert [a, b, c][1..] == [b, c] && [b, c][1..] == [c] && [c][1..] == [];
    assert Layout([c]);
    assert Layout([b, c]);
  }

  lemma CloseLexes()
    ensures Layout([Brace('}')]) && RenderAll([Brace('}')]) == "}" && Texts([Brace('}')]) == ["}"]
  {
  }

  lemma PiecesSpell(l: Line)
    requires LineOk(l)
    ensures Layout(PiecesOf(l)) && RenderAll(PiecesOf(l)) == LineText(l) && Texts(PiecesOf(l)) == LineTokens(l)
  {
    match l
    case Open(name) =>
      LayoutThree(Bare(name), Blank(' '), Brace('{'));
      RenderThree(Bare(name), Blank(' '), Brace('{'));
      TextsOfThree(Bare(name), Blank(' '), Brace('{'));
    case Entry(key, val) =>
      LayoutThree(Bare(key), Blank(' '), Quoted(val));
      RenderThree(Bare(key), Blank(' '), Quoted(val));
      TextsOfThree(Bare(key), Blank(' '), Quoted(val));
    case Close => CloseLexes();
  }

  lemma LineLexes(l: Line)
    requires LineOk(l)
    ensures Lex(StripComment(LineText(l))) == Some(PiecesOf(l)) && Texts(PiecesOf(l)) == LineTokens(l)
  {
    LinePlain(l);
    CommentIgnored(LineText(l), "");
    PiecesSpell(l);
    LexComplete(PiecesOf(l));
  }

  function TextsOfLines(ls: seq<Line>): seq<string> {
    seq(|ls|, i requires 0 <= i < |ls| => LineText(ls[i]))
  }

  lemma TextsOfLinesCons(ls: seq<Line>)
    requires ls != []
    ensures TextsOfLines(ls) == [LineText(ls[0])] + TextsOfLines(ls[1..])
  {
  }

  lemma {:induction false} JoinLines(ls: seq<Line>)
    requires forall i :: 0 <= i < |ls| ==> LineOk(ls[i])
    ensures Lines(Join(ls)) == TextsOfLines(ls)
  {
    if ls != [] {
      LinePlain(ls[0]);
      JoinLines(ls[1..]);
      LinesExactly(LineText(ls[0]), Join(ls[1..]));
      TextsOfLinesCons(ls);
    }
  }

  function Tokens(ls: seq<Line>): seq<string> {
    if ls == [] then [] else LineTokens(ls[0]) + Tokens(ls[1..])
  }

  lemma {:induction false} TokensAppend(xs: seq<Line>, ys: seq<Line>)
    ensures Tokens(xs + ys) == Tokens(xs) + Tokens(ys)
    decreases |xs|
  {
    if xs == [] {
      assert xs + ys == ys;
    } else {
      assert (xs + ys)[1..] == xs[1..] + ys;
      TokensAppend(xs[1..], ys);
      Assoc(LineTokens(xs[0]), Tokens(xs[1..]), Tokens(ys));
    }
  }

  lemma TokensOne(l: Line)
    ensures Tokens([l]) == LineTokens(l)
  {
  }

  /** One printed line in front adds its tokens. */
  lemma TokenizeCons(first: Line, rest: seq<string>, ts: seq<string>)
    requires LineOk(first) && LineTexts(rest) == Some(ts)
    ensures LineTexts([LineText(first)] + rest) == Some(LineTokens(first) + ts)
  {
    LineLexes(first);
    OneLine(LineText(first));
    LinesAppend([LineText(first)], rest);
  }

  lemma {:induction false} LinesTokenize(ls: seq<Line>)
    requires forall i :: 0 <= i < |ls| ==> LineOk(ls[i])
    ensures LineTexts(TextsOfLines(ls)) == Some(Tokens(ls))
    decreases |ls|
  {
    if ls == [] {
      assert TextsOfLines(ls) == [];
    } else {
      LinesTokenize(ls[1..]);
      TokenizeCons(ls[0], TextsOfLines(ls[1..]), Tokens(ls[1..]));
      TextsOfLinesCons(ls);
    }
  }

  // ---- parsing the printed tokens ----

  /** `c` with one key taken from `d`. */
  function Copy(k: Key, d: Config, c: Config): Config {
    match k
    case Listen => c.(listen := d.listen)
    case Workers => c.(workers := d.workers)
    case Tcp => c.(tcp := d.tcp)
    case Edns0 => c.(edns0 := d.edns0)
    case ApiListen => c.(api := d.api)
    case Dsn => c.(dsn := d.dsn)
    case Addr => c.(nacos := c.nacos.(addr := d.nacos.addr))
    case Namespace => c.(nacos := c.nacos.(namespace := d.nacos.namespace))
    case Group => c.(nacos := c.nacos.(group := d.nacos.group))
    case Prefix => c.(nacos := c.nacos.(prefix := d.nacos.prefix))
    case Username => c.(nacos := c.nacos.(username := d.nacos.username))
    case Password => c.(nacos := c.nacos.(password := d.nacos.password))
    case Interval => c.(interval := d.interval)
    case Prob => c.(prob := d.prob)
    case RateLimit => c.(rateLimit := d.rateLimit)
  }

  function CopyKeys(table: seq<(string, Key)>, d: Config, c: Config): Config {
    if table == [] then c else CopyKeys(table[1..], d, Copy(table[0].1, d, c))
  }

  function CopyBlocks(table: seq<(string, Block)>, d: Config, c: Config): Config {
    if table == [] then c else CopyBlocks(table[1..], d, CopyKeys(Keys(table[0].1), d, c))
  }

  lemma DigitsWritable(n: int)
    ensures Writable(Itoa(n))
  {
  }

  /** Setting a key to its printed value copies it. */
  lemma SetCopies(nums: Numbers, k: Key, d: Config, c: Config)
    requires Representable(nums, d)
    ensures Writable(ValueText(k, d)) && SetKey(nums, k, ValueText(k, d), c) == Some(Copy(k, d, c))
  {
    match k
    case Workers => AtoiItoa(d.workers); DigitsWritable(d.workers);
    case RateLimit => AtoiItoa(d.rateLimit); DigitsWritable(d.rateLimit);
    case Tcp => BoolPlain(d.tcp);
    case Edns0 => BoolPlain(d.edns0);
    case _ =>
  }

  /** The texts of block b from entry n on are its own keys, and name no sub-block. */
  ghost predicate OwnKeys(b: Block, table: seq<(string, Key)>) {
    forall i :: 0 <= i < |table| ==>
      table[i].0 != "}" && Find(Keys(b), table[i].0) == Some(table[i].1) && Find(SubBlocks(b), table[i].0) == None
  }

  /** A key and a value at the front of a block. */
  lemma KeyParses(nums: Numbers, b: Block, text: string, k: Key, v: string, c: Config, more: seq<string>)
    requires text != "}" && v != "}" && Find(Keys(b), text) == Some(k) && Find(SubBlocks(b), text) == None
    ensures ParseBlock(nums, b, [text, v] + more, c) ==
            match SetKey(nums, k, v, c)
            case None => Failed(BadValue(2 + |more|))
            case Some(c') => ParseBlock(nums, b, more, c')
  {
    var toks := [text, v] + more;
    assert toks[0] == text && toks[1] == v && toks[2..] == more;
  }

  lemma EntryParses(nums: Numbers, b: Block, text: string, k: Key, d: Config, c: Config, more: seq<string>)
    requires Representable(nums, d) && text != "}" && Find(Keys(b), text) == Some(k) && Find(SubBlocks(b), text) == None
    ensures ParseBlock(nums, b, [text, ValueText(k, d)] + more, c) == ParseBlock(nums, b, more, Copy(k, d, c))
  {
    SetCopies(nums, k, d, c);
    KeyParses(nums, b, text, k, ValueText(k, d), c, more);
  }

  lemma {:induction false} EntriesParse(nums: Numbers, b: Block, table: seq<(string, Key)>, d: Config, c: Config,
                                        more: seq<string>)
    requires Representable(nums, d) && OwnKeys(b, table)
    ensures ParseBlock(nums, b, Tokens(EntryLines(table, d)) + more, c) ==
            ParseBlock(nums, b, more, CopyKeys(table, d, c))
    decreases |table|
  {
    if table == [] {
      assert Tokens(EntryLines(table, d)) + more == more;
    } else {
      var (text, k) := table[0];
      var tail := Tokens(EntryLines(table[1..], d));
      EntryTokens(table, d, more);
      EntryParses(nums, b, text, k, d, c, tail + more);
      EntriesParse(nums, b, table[1..], d, Copy(k, d, c), more);
    }
  }

  lemma EntryTokens(table: seq<(string, Key)>, d: Config, more: seq<string>)
    requires table != []
    ensures Tokens(EntryLines(table, d)) + more ==
            [table[0].0, ValueText(table[0].1, d)] + (Tokens(EntryLines(table[1..], d)) + more)
  {
  }

  lemma CloseParses(nums: Numbers, b: Block, c: Config, more: seq<string>)
    ensures ParseBlock(nums, b, ["}"] + more, c) == Done(c, more)
  {
  }

  lemma OpenParses(nums: Numbers, name: string, sub: Block, body: seq<string>, more: seq<string>, c: Config, c': Config)
    requires name != "}" && Find(SubBlocks(MainBlock), name) == Some(sub)
             && ParseBlock(nums, sub, body, c) == Done(c', more)
    ensures ParseBlock(nums, MainBlock, [name, "{"] + body, c) == ParseBlock(nums, MainBlock, more, c')
  {
  }

  lemma SectionTokens(name: string, b: Block, d: Config, more: seq<string>)
    ensures Tokens(SectionLines(name, b, d)) + more == [name, "{"] + (Tokens(EntryLines(Keys(b), d)) + (["}"] + more))
  {
    var entries := EntryLines(Keys(b), d);
    TokensAppend([Open(name)] + entries, [Close]);
    TokensAppend([Open(name)], entries);
    TokensOne(Open(name));
    TokensOne(Close);
    Regroup([name, "{"], Tokens(entries), ["}"], more);
  }

  lemma Regroup(w: seq<string>, x: seq<string>, y: seq<string>, z: seq<string>)
    ensures w + x + y + z == w + (x + (y + z))
  {
  }

  lemma BodyParses(nums: Numbers, b: Block, d: Config, c: Config, more: seq<string>)
    requires Representable(nums, d)
    ensures ParseBlock(nums, b, Tokens(EntryLines(Keys(b), d)) + (["}"] + more), c) ==
            Done(CopyKeys(Keys(b), d, c), more)
  {
    KeysOwn(b);
    EntriesParse(nums, b, Keys(b), d, c, ["}"] + more);
    CloseParses(nums, b, CopyKeys(Keys(b), d, c), more);
  }

  lemma SectionParses(nums: Numbers, name: string, sub: Block, d: Config, c: Config, more: seq<string>)
    requires Representable(nums, d) && name != "}" && Find(SubBlocks(MainBlock), name) == Some(sub)
    ensures ParseBlock(nums, MainBlock, Tokens(SectionLines(name, sub, d)) + more, c) ==
            ParseBlock(nums, MainBlock, more, CopyKeys(Keys(sub), d, c))
  {
    var body := Tokens(EntryLines(Keys(sub), d)) + (["}"] + more);
    SectionTokens(name, sub, d, more);
    BodyParses(nums, sub, d, c, more);
    OpenParses(nums, name, sub, body, more, c, CopyKeys(Keys(sub), d, c));
  }

  /** The texts of the table name its blocks. */
  ghost predicate OwnBlocks(table: seq<(string, Block)>) {
    forall i :: 0 <= i < |table| ==> table[i].0 != "}" && Find(SubBlocks(MainBlock), table[i].0) == Some(table[i].1)
  }

  lemma {:induction false} SectionsParse(nums: Numbers, table: seq<(string, Block)>, d: Config, c: Config,
                                         more: seq<string>)
    requires Representable(nums, d) && OwnBlocks(table)
    ensures ParseBlock(nums, MainBlock, Tokens(SectionsLines(table, d)) + more, c) ==
            ParseBlock(nums, MainBlock, more, CopyBlocks(table, d, c))
    decreases |table|
  {
    if table == [] {
      assert Tokens(SectionsLines(table, d)) + more == more;
    } else {
      var (name, b) := table[0];
      var tail := Tokens(SectionsLines(table[1..], d));
      SectionsTokens(table, d, more);
      SectionParses(nums, name, b, d, c, tail + more);
      SectionsParse(nums, table[1..], d, CopyKeys(Keys(b), d, c), more);
    }
  }

  lemma SectionsTokens(table: seq<(string, Block)>, d: Config, more: seq<string>)
    requires table != []
    ensures Tokens(SectionsLines(table, d)) + more ==
            Tokens(SectionLines(table[0].0, table[0].1, d)) + (Tokens(SectionsLines(table[1..], d)) + more)
  {
    var first, tail := SectionLines(table[0].0, table[0].1, d), SectionsLines(table[1..], d);
    TokensAppend(first, tail);
    Assoc(Tokens(first), Tokens(tail), more);
  }

  lemma SubsOwn()
    ensures OwnBlocks(SubBlocks(MainBlock))
  {
  }

  lemma KeysOwn(b: Block)
    ensures OwnKeys(b, Keys(b))
  {
    FindOwn(Keys(b));
    forall i | 0 <= i < |Keys(b)| ensures Find(SubBlocks(b), Keys(b)[i].0) == None {
      FindMember(SubBlocks(b), Keys(b)[i].0);
    }
  }

  /** In a table without repeated texts every entry is the one found. */
  lemma {:induction false} FindOwn<T>(table: seq<(string, T)>)
    requires forall i, j :: 0 <= i < j < |table| ==> table[i].0 != table[j].0
    ensures forall i :: 0 <= i < |table| ==> Find(table, table[i].0) == Some(table[i].1)
    decreases |table|
  {
    if table != [] {
      FindOwn(table[1..]);
      forall i | 0 <= i < |table| ensures Find(table, table[i].0) == Some(table[i].1) {
        if i > 0 { assert table[i] == table[1..][i - 1]; }
      }
    }
  }

  // ---- what each key sets, by name ----

  function ResultOf(set1: Option<Config>, left: nat): Result {
    match set1 case None => Bad(BadValue(left)) case Some(c) => Good(c)
  }

  function MainFile(key: string, v: string): seq<string> {
    ["dns-edge", "{", key, v, "}"]
  }

  function SubFile(section: string, key: string, v: string): seq<string> {
    ["dns-edge", "{", section, "{", key, v, "}", "}"]
  }

  lemma MainKeySets(nums: Numbers, i: nat, text: string, k: Key, v: string)
    requires i < |Keys(MainBlock)| && Keys(MainBlock)[i] == (text, k) && v != "}"
    ensures ParseTokens(nums, MainFile(text, v)) == ResultOf(SetKey(nums, k, v, DEFAULTS), 3)
  {
    KeysOwn(MainBlock);
    KeyParses(nums, MainBlock, text, k, v, DEFAULTS, ["}"]);
    assert MainFile(text, v)[2..] == [text, v] + ["}"];
    if c :| SetKey(nums, k, v, DEFAULTS) == Some(c) {
      assert ["}"] + [] == ["}"];
      CloseParses(nums, MainBlock, c, []);
    }
  }

  lemma SubBodySets(nums: Numbers, b: Block, j: nat, text: string, k: Key, v: string)
    requires j < |Keys(b)| && Keys(b)[j] == (text, k) && v != "}"
    ensures ParseBlock(nums, b, [text, v] + ["}", "}"], DEFAULTS) ==
            match SetKey(nums, k, v, DEFAULTS) case None => Failed(BadValue(4)) case Some(c) => Done(c, ["}"])
  {
    KeysOwn(b);
    KeyParses(nums, b, text, k, v, DEFAULTS, ["}", "}"]);
    if c :| SetKey(nums, k, v, DEFAULTS) == Some(c) {
      assert ["}"] + ["}"] == ["}", "}"];
      CloseParses(nums, b, c, ["}"]);
    }
  }

  lemma SubKeySets(nums: Numbers, i: nat, name: string, b: Block, j: nat, text: string, k: Key, v: string)
    requires i < |SubBlocks(MainBlock)| && SubBlocks(MainBlock)[i] == (name, b)
    requires j < |Keys(b)| && Keys(b)[j] == (text, k) && v != "}"
    ensures ParseTokens(nums, SubFile(name, text, v)) == ResultOf(SetKey(nums, k, v, DEFAULTS), 4)
  {
    SubsOwn();
    SubBodySets(nums, b, j, text, k, v);
    var body := [text, v] + ["}", "}"];
    assert SubFile(name, text, v)[2..] == [name, "{"] + body;
    assert ([name, "{"] + body)[2..] == body;
    if c :| SetKey(nums, k, v, DEFAULTS) == Some(c) {
      OpenParses(nums, name, b, body, ["}"], DEFAULTS, c);
      assert ["}"] + [] == ["}"];
      CloseParses(nums, MainBlock, c, []);
    }
  }

  /**
   Keys of the main block, each alone in a file: the setting it names is changed and no other; a bad integer is
   refused.
   */
  lemma MainKeys(nums: Numbers, v: string)
    requires v != "}"
    ensures ParseTokens(nums, MainFile("listen", v)) == Good(DEFAULTS.(listen := v))
    ensures ParseTokens(nums, MainFile("workers", v)) ==
            match Atoi(v) case None => Bad(BadValue(3)) case Some(n) => Good(DEFAULTS.(workers := n))
    ensures ParseTokens(nums, MainFile("tcp", v)) == Good(DEFAULTS.(tcp := v == "true" || v == "1" || v == "yes"))
    ensures ParseTokens(nums, MainFile("edns0", v)) == Good(DEFAULTS.(edns0 := v == "true" || v == "1" || v == "yes"))
  {
    MainKeySets(nums, 0, "listen", Listen, v);
    MainKeySets(nums, 1, "workers", Workers, v);
    MainKeySets(nums, 2, "tcp", Tcp, v);
    MainKeySets(nums, 3, "edns0", Edns0, v);
  }

  lemma ServiceKeys(nums: Numbers, v: string)
    requires v != "}"
    ensures ParseTokens(nums, SubFile("api", "listen", v)) == Good(DEFAULTS.(api := v))
    ensures ParseTokens(nums, SubFile("postgres", "dsn", v)) == Good(DEFAULTS.(dsn := v))
  {
    SubKeySets(nums, 0, "api", ApiBlock, 0, "listen", ApiListen, v);
    SubKeySets(nums, 1, "postgres", PostgresBlock, 0, "dsn", Dsn, v);
  }

  lemma NacosPlaceKeys(nums: Numbers, v: string)
    requires v != "}"
    ensures ParseTokens(nums, SubFile("nacos", "addr", v)) == Good(DEFAULTS.(nacos := DEFAULTS.nacos.(addr := v)))
    ensures ParseTokens(nums, SubFile("nacos", "namespace", v)) ==
            Good(DEFAULTS.(nacos := DEFAULTS.nacos.(namespace := v)))
  {
    SubKeySets(nums, 2, "nacos", NacosBlock, 0, "addr", Addr, v);
    SubKeySets(nums, 2, "nacos", NacosBlock, 1, "namespace", Namespace, v);
  }

  lemma NacosGroupKeys(nums: Numbers, v: string)
    requires v != "}"
    ensures ParseTokens(nums, SubFile("nacos", "group", v)) == Good(DEFAULTS.(nacos := DEFAULTS.nacos.(group := v)))
    ensures ParseTokens(nums, SubFile("nacos", "data_id_prefix", v)) ==
            Good(DEFAULTS.(nacos := DEFAULTS.nacos.(prefix := v)))
  {
    SubKeySets(nums, 2, "nacos", NacosBlock, 2, "group", Group, v);
    SubKeySets(nums, 2, "nacos", NacosBlock, 3, "data_id_prefix", Prefix, v);
  }

  lemma NacosLoginKeys(nums: Numbers, v: string)
    requires v != "}"
    ensures ParseTokens(nums, SubFile("nacos", "username", v)) ==
            Good(DEFAULTS.(nacos := DEFAULTS.nacos.(username := v)))
    ensures ParseTokens(nums, SubFile("nacos", "password", v)) ==
            Good(DEFAULTS.(nacos := DEFAULTS.nacos.(password := v)))
  {
    SubKeySets(nums, 2, "nacos", NacosBlock, 4, "username", Username, v);
    SubKeySets(nums, 2, "nacos", NacosBlock, 5, "password", Password, v);
  }

  lemma SyncKeys(nums: Numbers, v: string)
    requires v != "}"
    ensures ParseTokens(nums, SubFile("sync", "interval", v)) ==
            if nums.duration(v) then Good(DEFAULTS.(interval := v)) else Bad(BadValue(4))
    ensures ParseTokens(nums, SubFile("sync", "prob", v)) ==
            if nums.float(v) then Good(DEFAULTS.(prob := v)) else Bad(BadValue(4))
  {
    SubKeySets(nums, 3, "sync", SyncBlock, 0, "interval", Interval, v);
    SubKeySets(nums, 3, "sync", SyncBlock, 1, "prob", Prob, v);
  }

  lemma RateLimitKey(nums: Numbers, v: string)
    requires v != "}"
    ensures ParseTokens(nums, SubFile("sync", "ratelimit", v)) ==
            match Atoi(v) case None => Bad(BadValue(4)) case Some(n) => Good(DEFAULTS.(rateLimit := n))
  {
    SubKeySets(nums, 3, "sync", SyncBlock, 2, "ratelimit", RateLimit, v);
  }

  // ---- every key is copied ----

  /** `c` has the same value of k as `d`. */
  ghost predicate Same(k: Key, c: Config, d: Config) {
    Copy(k, d, c) == c
  }

  lemma CopySame(k: Key, d: Config, c: Config)
    ensures Same(k, Copy(k, d, c), d)
  {
  }

  lemma CopyKeepsSame(j: Key, k: Key, d: Config, c: Config)
    requires Same(k, c, d)
    ensures Same(k, Copy(j, d, c), d)
  {
  }

  lemma {:induction false} CopyKeysSame(table: seq<(string, Key)>, k: Key, d: Config, c: Config)
    ensures Same(k, c, d) || (exists i :: 0 <= i < |table| && table[i].1 == k) ==> Same(k, CopyKeys(table, d, c), d)
    decreases |table|
  {
    if table != [] {
      CopySame(k, d, c);
      if Same(k, c, d) { CopyKeepsSame(table[0].1, k, d, c); }
      CopyKeysSame(table[1..], k, d, Copy(table[0].1, d, c));
      if i :| 1 <= i < |table| && table[i].1 == k { assert table[1..][i - 1].1 == k; }
    }
  }

  lemma {:induction false} CopyBlocksSame(table: seq<(string, Block)>, i: nat, j: nat, k: Key, d: Config, c: Config)
    requires Same(k, c, d) || (i < |table| && j < |Keys(table[i].1)| && Keys(table[i].1)[j].1 == k)
    ensures Same(k, CopyBlocks(table, d, c), d)
    decreases |table|
  {
    if table != [] {
      CopyKeysSame(Keys(table[0].1), k, d, c);
      CopyBlocksSame(table[1..], if i == 0 then 0 else i - 1, j, k, d, CopyKeys(Keys(table[0].1), d, c));
    }
  }

  /** Where the key k is: the sub-block's index, and its own in the block. */
  function Place(k: Key): (nat, nat) {
    match k
    case Listen => (0, 0)
    case Workers => (0, 1)
    case Tcp => (0, 2)
    case Edns0 => (0, 3)
    case ApiListen => (0, 0)
    case Dsn => (1, 0)
    case Addr => (2, 0)
    case Namespace => (2, 1)
    case Group => (2, 2)
    case Prefix => (2, 3)
    case Username => (2, 4)
    case Password => (2, 5)
    case Interval => (3, 0)
    case Prob => (3, 1)
    case RateLimit => (3, 2)
  }

  predicate InMain(k: Key) {
    k == Listen || k == Workers || k == Tcp || k == Edns0
  }

  lemma EveryKey(d: Config, c: Config, k: Key)
    ensures Same(k, CopyBlocks(SubBlocks(MainBlock), d, CopyKeys(Keys(MainBlock), d, c)), d)
  {
    var (i, j) := Place(k);
    if InMain(k) { assert Keys(MainBlock)[j].1 == k; }
    CopyKeysSame(Keys(MainBlock), k, d, c);
    CopyBlocksSame(SubBlocks(MainBlock), i, j, k, d, CopyKeys(Keys(MainBlock), d, c));
  }

  lemma AllSame(c: Config, d: Config)
    requires forall k: Key :: Same(k, c, d)
    ensures c == d
  {
    assert Same(Listen, c, d) && Same(Workers, c, d) && Same(Tcp, c, d) && Same(Edns0, c, d);
    assert Same(ApiListen, c, d) && Same(Dsn, c, d);
    assert Same(Addr, c, d) && Same(Namespace, c, d) && Same(Group, c, d);
    assert Same(Prefix, c, d) && Same(Username, c, d) && Same(Password, c, d);
    assert Same(Interval, c, d) && Same(Prob, c, d) && Same(RateLimit, c, d);
  }

  lemma PrintedTokens(d: Config)
    ensures Tokens(AllLines(d)) ==
            ["dns-edge", "{"] + (Tokens(EntryLines(Keys(MainBlock), d))
                                 + (Tokens(SectionsLines(SubBlocks(MainBlock), d)) + ["}"]))
  {
    var head, entries, sections := Open("dns-edge"), EntryLines(Keys(MainBlock), d),
      SectionsLines(SubBlocks(MainBlock), d);
    TokensAppend([head] + entries + sections, [Close]);
    TokensAppend([head] + entries, sections);
    TokensAppend([head], entries);
    TokensOne(head);
    TokensOne(Close);
  }

  lemma PrintedParses(nums: Numbers, d: Config)
    requires Representable(nums, d)
    ensures ParseTokens(nums, Tokens(AllLines(d))) == Good(d)
  {
    var entries, sections := Tokens(EntryLines(Keys(MainBlock), d)), Tokens(SectionsLines(SubBlocks(MainBlock), d));
    PrintedTokens(d);
    var toks := Tokens(AllLines(d));
    assert toks[0] == "dns-edge" && toks[1] == "{" && toks[2..] == entries + (sections + ["}"]);
    KeysOwn(MainBlock);
    EntriesParse(nums, MainBlock, Keys(MainBlock), d, DEFAULTS, sections + ["}"]);
    var c1 := CopyKeys(Keys(MainBlock), d, DEFAULTS);
    SubsOwn();
    SectionsParse(nums, SubBlocks(MainBlock), d, c1, ["}"]);
    var c2 := CopyBlocks(SubBlocks(MainBlock), d, c1);
    assert ["}"] + [] == ["}"];
    CloseParses(nums, MainBlock, c2, []);
    forall k: Key ensures Same(k, c2, d) { EveryKey(d, DEFAULTS, k); }
    AllSame(c2, d);
  }

  lemma BoolPlain(b: bool)
    ensures Plain(Bool(b))
  {
  }

  lemma MainWords()
    ensures WordText("dns-edge") && WordText("listen") && WordText("workers")
  {
  }

  lemma FlagWords()
    ensures WordText("tcp") && WordText("edns0")
  {
  }

  lemma BlockWords()
    ensures WordText("api") && WordText("postgres") && WordText("nacos") && WordText("sync")
  {
  }

  lemma SyncWords()
    ensures WordText("interval") && WordText("prob") && WordText("ratelimit")
  {
  }

  lemma NacosPlaceWords()
    ensures WordText("addr") && WordText("namespace") && WordText("group")
  {
  }

  lemma PrefixWord()
    ensures WordText("data_id_prefix")
  {
  }

  lemma LoginWords()
    ensures WordText("username") && WordText("password")
  {
  }

  lemma DefaultGroupWord()
    ensures WordText("DEFAULT_GROUP")
  {
  }

  lemma DefaultPrefixWord()
    ensures WordText("dns_weights:")
  {
  }

  lemma KeyWords(b: Block, i: nat)
    requires i < |Keys(b)|
    ensures WordText(Keys(b)[i].0)
  {
    match b
    case MainBlock => MainWords(); FlagWords();
    case NacosBlock => NacosPlaceWords(); PrefixWord(); LoginWords();
    case SyncBlock => SyncWords();
    case _ =>
  }

  ghost predicate LinesOk(ls: seq<Line>) {
    forall i :: 0 <= i < |ls| ==> LineOk(ls[i])
  }

  lemma {:induction false} EntryLinesOk(nums: Numbers, table: seq<(string, Key)>, d: Config)
    requires Representable(nums, d) && forall i :: 0 <= i < |table| ==> WordText(table[i].0)
    ensures LinesOk(EntryLines(table, d))
    decreases |table|
  {
    if table != [] {
      SetCopies(nums, table[0].1, d, d);
      EntryLinesOk(nums, table[1..], d);
    }
  }

  lemma {:induction false} SectionsLinesOk(nums: Numbers, table: seq<(string, Block)>, d: Config)
    requires Representable(nums, d) && forall i :: 0 <= i < |table| ==> WordText(table[i].0)
    ensures LinesOk(SectionsLines(table, d))
    decreases |table|
  {
    if table != [] {
      var (name, b) := table[0];
      KeysLinesOk(nums, b, d);
      assert LinesOk(SectionLines(name, b, d));
      SectionsLinesOk(nums, table[1..], d);
    }
  }

  lemma KeysLinesOk(nums: Numbers, b: Block, d: Config)
    requires Representable(nums, d)
    ensures LinesOk(EntryLines(Keys(b), d))
  {
    forall i | 0 <= i < |Keys(b)| ensures WordText(Keys(b)[i].0) { KeyWords(b, i); }
    EntryLinesOk(nums, Keys(b), d);
  }

  lemma AllLinesOk(nums: Numbers, d: Config)
    requires Representable(nums, d)
    ensures LinesOk(AllLines(d))
  {
    MainWords();
    BlockWords();
    KeysLinesOk(nums, MainBlock, d);
    SectionsLinesOk(nums, SubBlocks(MainBlock), d);
  }

  /** Round trip: the printed text reads back as the configuration. */
  lemma RoundTrip(nums: Numbers, c: Config)
    requires Representable(nums, c)
    ensures ReadText(nums, Print(c)) == Parsed(c)
  {
    AllLinesOk(nums, c);
    JoinLines(AllLines(c));
    LinesTokenize(AllLines(c));
    PrintedParses(nums, c);
  }

  // ---- and nothing else can be written ----

  /** Every character of a token is a character of its line, and none is a quote. */
  lemma {:induction false} TokenChars(ps: seq<Piece>, t: string, ch: char)
    requires Layout(ps) && t in Texts(ps) && ch in t
    ensures ch in RenderAll(ps) && ch != '"'
    decreases |ps|
  {
    if t in Text(ps[0]) {
      assert ch in Render(ps[0]);
    } else {
      TokenChars(ps[1..], t, ch);
    }
  }

  lemma {:induction false} LinesNoNewline(text: string, i: nat)
    requires i < |Lines(text)|
    ensures '\n' !in Lines(text)[i]
    decreases |text|
  {
    var j := IndexOf(text, '\n');
    var line := text[..j];
    assert '\n' !in line && '\n' !in DropCR(line);
    if j == |text| {
      assert line == text;
    } else {
      var rest := text[j + 1..];
      assert text == line + "\n" + rest;
      LinesExactly(line, rest);
      if i > 0 { LinesNoNewline(rest, i - 1); }
    }
  }

  /** Every token of every text is plain. */
  lemma {:induction false} TokensPlain(lines: seq<string>, t: string)
    requires forall i :: 0 <= i < |lines| ==> '\n' !in lines[i]
    requires LineTexts(lines).Some? && t in LineTexts(lines).value
    ensures Plain(t)
    decreases |lines|
  {
    var front, last := lines[..|lines| - 1], lines[|lines| - 1];
    if t in LineTexts(front).value {
      TokensPlain(front, t);
    } else {
      var s := StripComment(last);
      var ps := Lex(s).value;
      LexSound(s);
      forall ch | ch in t ensures ch != '"' && ch in s { TokenChars(ps, t, ch); }
      assert '#' !in s && '\n' !in s;
    }
  }

  lemma SetKeepsRepresentable(nums: Numbers, k: Key, v: string, c: Config)
    requires Representable(nums, c) && Writable(v) && SetKey(nums, k, v, c).Some?
    ensures Representable(nums, SetKey(nums, k, v, c).value)
  {
  }

  lemma {:induction false} BlockKeepsRepresentable(nums: Numbers, b: Block, toks: seq<string>, c: Config)
    requires Representable(nums, c) && (forall t :: t in toks ==> Plain(t)) && ParseBlock(nums, b, toks, c).Done?
    ensures Representable(nums, ParseBlock(nums, b, toks, c).config)
    ensures forall t :: t in ParseBlock(nums, b, toks, c).rest ==> Plain(t)
    decreases |toks|
  {
    if toks[0] != "}" {
      assert toks[1] in toks;
      forall t | t in toks[2..] ensures Plain(t) { assert t in toks; }
      var sub := Find(SubBlocks(b), toks[0]);
      if sub.Some? {
        BlockKeepsRepresentable(nums, sub.value, toks[2..], c);
        var inner := ParseBlock(nums, sub.value, toks[2..], c);
        BlockKeepsRepresentable(nums, b, inner.rest, inner.config);
      } else {
        var k := Find(Keys(b), toks[0]).value;
        SetKeepsRepresentable(nums, k, toks[1], c);
        BlockKeepsRepresentable(nums, b, toks[2..], SetKey(nums, k, toks[1], c).value);
      }
    }
  }

  lemma DefaultsRepresentable(nums: Numbers)
    requires nums.duration("30s") && nums.float("0.01")
    ensures Representable(nums, DEFAULTS)
  {
    DefaultGroupWord();
    DefaultPrefixWord();
  }

  lemma TextTokensPlain(text: string, t: string)
    requires LineTexts(Lines(text)).Some? && t in LineTexts(Lines(text)).value
    ensures Plain(t)
  {
    var lines := Lines(text);
    forall i | 0 <= i < |lines| ensures '\n' !in lines[i] { LinesNoNewline(text, i); }
    TokensPlain(lines, t);
  }

  lemma TokensRepresentable(nums: Numbers, toks: seq<string>)
    requires Representable(nums, DEFAULTS) && (forall t :: t in toks ==> Plain(t)) && ParseTokens(nums, toks).Good?
    ensures Representable(nums, ParseTokens(nums, toks).config)
  {
    if toks != [] {
      forall t | t in toks[2..] ensures Plain(t) { assert t in toks; }
      BlockKeepsRepresentable(nums, MainBlock, toks[2..], DEFAULTS);
    }
  }

  lemma ReadIsRepresentable(nums: Numbers, text: string)
    requires nums.duration("30s") && nums.float("0.01") && ReadText(nums, text).Parsed?
    ensures Representable(nums, ReadText(nums, text).config)
  {
    DefaultsRepresentable(nums);
    var toks := LineTexts(Lines(text)).value;
    forall t | t in toks ensures Plain(t) { TextTokensPlain(text, t); }
    TokensRepresentable(nums, toks);
  }

  /**
   The exact reach of the format: some text reads as a configuration if and only if every string of it is free of
   quotes, hashes and newlines and is not a closing brace, its integers fit 64 bits, and its duration and probability
   are accepted.
   */
  lemma RepresentableExactly(nums: Numbers, c: Config)
    requires nums.duration("30s") && nums.float("0.01")
    ensures (exists text :: ReadText(nums, text) == Parsed(c)) <==> Representable(nums, c)
  {
    if text :| ReadText(nums, text) == Parsed(c) { ReadIsRepresentable(nums, text); }
    if Representable(nums, c) { RoundTrip(nums, c); }
  }
}
