/**
 The language of the configuration file, told without the parser: what token lists are a block, and what configuration
 a block stands for. The parser accepts exactly these and gives exactly that configuration.
 */
module CorefileGrammar {
  import opened Records
  import opened Lexer
  import opened Corefile
  import opened Printer

  // ---- the grammar ----

  /** What stands between the braces of a block. */
  datatype Items =
    | End
    | Setting(key: string, v: string, rest: Items)
    | Section(name: string, body: Items, rest: Items)

  function Spelled(items: Items): seq<string> {
    match items
    case End => []
    case Setting(key, v, rest) => [key, v] + Spelled(rest)
    case Section(name, body, rest) => [name, "{"] + Spelled(body) + ["}"] + Spelled(rest)
  }

  /**
   Every key belongs to the block and has an acceptable value that is no closing brace; every section is one of its
   own.
   */
  ghost predicate Fits(nums: Numbers, b: Block, items: Items)
    decreases items
  {
    match items
    case End => true
    case Setting(key, v, rest) =>
      && key != "}" && v != "}" && Find(SubBlocks(b), key) == None && Find(Keys(b), key).Some?
      && SetKey(nums, Find(Keys(b), key).value, v, DEFAULTS).Some? && Fits(nums, b, rest)
    case Section(name, body, rest) =>
      && name != "}" && Find(SubBlocks(b), name).Some?
      && Fits(nums, Find(SubBlocks(b), name).value, body) && Fits(nums, b, rest)
  }

  /** Whether a value is acceptable does not depend on what was set before. */
  lemma AcceptedAnyway(nums: Numbers, k: Key, v: string, c: Config, d: Config)
    ensures SetKey(nums, k, v, c).Some? <==> SetKey(nums, k, v, d).Some?
  {
  }

  /** The settings in order, the last one of a key winning. */
  ghost function Meaning(nums: Numbers, b: Block, items: Items, c: Config): Config
    requires Fits(nums, b, items)
    decreases items
  {
    match items
    case End => c
    case Setting(key, v, rest) =>
      AcceptedAnyway(nums, Find(Keys(b), key).value, v, c, DEFAULTS);
      Meaning(nums, b, rest, SetKey(nums, Find(Keys(b), key).value, v, c).value)
    case Section(name, body, rest) =>
      Meaning(nums, b, rest, Meaning(nums, Find(SubBlocks(b), name).value, body, c))
  }

  // ---- the parser accepts the grammar ----

  lemma {:induction false} Complete(nums: Numbers, b: Block, items: Items, more: seq<string>, c: Config)
    requires Fits(nums, b, items)
    ensures ParseBlock(nums, b, Spelled(items) + (["}"] + more), c) == Done(Meaning(nums, b, items, c), more)
    decreases items
  {
    match items
    case End =>
      assert Spelled(items) + (["}"] + more) == ["}"] + more;
      CloseParses(nums, b, c, more);
    case Setting(key, v, rest) =>
      var k := Find(Keys(b), key).value;
      AcceptedAnyway(nums, k, v, c, DEFAULTS);
      var c' := SetKey(nums, k, v, c).value;
      Complete(nums, b, rest, more, c');
      Assoc([key, v], Spelled(rest), ["}"] + more);
      KeyParses(nums, b, key, k, v, c, Spelled(rest) + (["}"] + more));
    case Section(name, body, rest) =>
      var sub := Find(SubBlocks(b), name).value;
      var after := Spelled(rest) + (["}"] + more);
      Complete(nums, sub, body, after, c);
      Complete(nums, b, rest, more, Meaning(nums, sub, body, c));
      RegroupSection(name, Spelled(body), Spelled(rest), ["}"] + more);
      SectionOpens(nums, b, name, sub, Spelled(body) + (["}"] + after), after, c, Meaning(nums, sub, body, c));
  }

  lemma RegroupSection(name: string, body: seq<string>, rest: seq<string>, more: seq<string>)
    ensures [name, "{"] + body + ["}"] + rest + more == [name, "{"] + (body + (["}"] + (rest + more)))
  {
  }

  lemma SectionOpens(nums: Numbers, b: Block, name: string, sub: Block, body: seq<string>, more: seq<string>,
                     c: Config, c': Config)
    requires name != "}" && Find(SubBlocks(b), name) == Some(sub) && ParseBlock(nums, sub, body, c) == Done(c', more)
    ensures ParseBlock(nums, b, [name, "{"] + body, c) == ParseBlock(nums, b, more, c')
  {
    var toks := [name, "{"] + body;
    assert toks[0] == name && toks[1] == "{" && toks[2..] == body;
  }

  // ---- and nothing else ----

  /** An accepted block is spelled by some items that fit, up to its closing brace. */
  lemma {:induction false} Sound(nums: Numbers, b: Block, toks: seq<string>, c: Config) returns (items: Items)
    requires ParseBlock(nums, b, toks, c).Done?
    ensures Fits(nums, b, items)
    ensures toks == Spelled(items) + (["}"] + ParseBlock(nums, b, toks, c).rest)
    ensures ParseBlock(nums, b, toks, c).config == Meaning(nums, b, items, c)
    decreases |toks|
  {
    if toks[0] == "}" {
      items := End;
      assert toks == ["}"] + toks[1..];
    } else if Find(SubBlocks(b), toks[0]).Some? {
      items := SoundSection(nums, b, toks, c);
    } else {
      var k, v := Find(Keys(b), toks[0]).value, toks[1];
      AcceptedAnyway(nums, k, v, c, DEFAULTS);
      var c' := SetKey(nums, k, v, c).value;
      var rest := Sound(nums, b, toks[2..], c');
      items := Setting(toks[0], v, rest);
      assert toks == [toks[0], v] + toks[2..];
      Assoc([toks[0], v], Spelled(rest), ["}"] + ParseBlock(nums, b, toks[2..], c').rest);
    }
  }

  lemma {:induction false} SoundSection(nums: Numbers, b: Block, toks: seq<string>, c: Config) returns (items: Items)
    requires ParseBlock(nums, b, toks, c).Done? && toks[0] != "}" && Find(SubBlocks(b), toks[0]).Some?
    ensures Fits(nums, b, items)
    ensures toks == Spelled(items) + (["}"] + ParseBlock(nums, b, toks, c).rest)
    ensures ParseBlock(nums, b, toks, c).config == Meaning(nums, b, items, c)
    decreases |toks|, 0
  {
    var sub := Find(SubBlocks(b), toks[0]).value;
    var inner := ParseBlock(nums, sub, toks[2..], c);
    var body := Sound(nums, sub, toks[2..], c);
    var rest := Sound(nums, b, inner.rest, inner.config);
    items := Section(toks[0], body, rest);
    assert toks == [toks[0], "{"] + toks[2..];
    RegroupSection(toks[0], Spelled(body), Spelled(rest), ["}"] + ParseBlock(nums, b, inner.rest, inner.config).rest);
  }

  /** A block is accepted, with this configuration and these tokens left, exactly when items that fit spell it. */
  lemma BlockExactly(nums: Numbers, b: Block, toks: seq<string>, c: Config, c': Config, more: seq<string>)
    ensures ParseBlock(nums, b, toks, c) == Done(c', more) <==>
            exists items :: Fits(nums, b, items) && toks == Spelled(items) + (["}"] + more)
                            && c' == Meaning(nums, b, items, c)
  {
    if ParseBlock(nums, b, toks, c) == Done(c', more) {
      var items := Sound(nums, b, toks, c);
    }
    if items :| Fits(nums, b, items) && toks == Spelled(items) + (["}"] + more) && c' == Meaning(nums, b, items, c) {
      Complete(nums, b, items, more, c);
    }
  }

  /**
   The whole file: no token at all, or the block name, a brace, items that fit the main block, and a brace; what
   follows does not matter. Anything else is refused.
   */
  lemma FileExactly(nums: Numbers, toks: seq<string>, c: Config)
    ensures ParseTokens(nums, toks) == Good(c) <==>
            || (toks == [] && c == DEFAULTS)
            || exists items, more :: Fits(nums, MainBlock, items) && c == Meaning(nums, MainBlock, items, DEFAULTS)
                                     && toks == ["dns-edge", "{"] + (Spelled(items) + (["}"] + more))
  {
    if ParseTokens(nums, toks) == Good(c) && toks != [] {
      var out := ParseBlock(nums, MainBlock, toks[2..], DEFAULTS);
      var items := Sound(nums, MainBlock, toks[2..], DEFAULTS);
      assert toks == ["dns-edge", "{"] + toks[2..];
      assert toks == ["dns-edge", "{"] + (Spelled(items) + (["}"] + out.rest));
    }
    if items, more :| Fits(nums, MainBlock, items) && c == Meaning(nums, MainBlock, items, DEFAULTS)
                      && toks == ["dns-edge", "{"] + (Spelled(items) + (["}"] + more))
    {
      Complete(nums, MainBlock, items, more, DEFAULTS);
      assert toks[0] == "dns-edge" && toks[1] == "{" && toks[2..] == Spelled(items) + (["}"] + more);
    }
  }

  // ---- the names ----

  lemma {:induction false} FoundExactly<T>(table: seq<(string, T)>, text: string)
    ensures Find(table, text).Some? <==> exists i :: 0 <= i < |table| && table[i].0 == text
    decreases |table|
  {
    if table != [] && table[0].0 != text {
      FoundExactly(table[1..], text);
      if i :| 0 <= i < |table[1..]| && table[1..][i].0 == text { assert table[i + 1].0 == text; }
      if i :| 0 <= i < |table| && table[i].0 == text { assert table[1..][i - 1].0 == text; }
    }
  }

  /** The main block has these keys and no others. */
  lemma MainNames(text: string)
    ensures Find(Keys(MainBlock), text).Some? <==>
            text == "listen" || text == "workers" || text == "tcp" || text == "edns0"
  {
    var t := Keys(MainBlock);
    FoundExactly(t, text);
    assert t[0].0 == "listen" && t[1].0 == "workers" && t[2].0 == "tcp" && t[3].0 == "edns0";
  }

  /** And these sections and no others, which have none themselves. */
  lemma SectionNames(b: Block, text: string)
    ensures Find(SubBlocks(b), text).Some? <==>
            b.MainBlock? && (text == "api" || text == "postgres" || text == "nacos" || text == "sync")
  {
    var t := SubBlocks(b);
    FoundExactly(t, text);
    if b.MainBlock? {
      assert t[0].0 == "api" && t[1].0 == "postgres" && t[2].0 == "nacos" && t[3].0 == "sync";
    }
  }

  lemma SmallSectionNames(text: string)
    ensures Find(Keys(ApiBlock), text).Some? <==> text == "listen"
    ensures Find(Keys(PostgresBlock), text).Some? <==> text == "dsn"
    ensures Find(Keys(SyncBlock), text).Some? <==> text == "interval" || text == "prob" || text == "ratelimit"
  {
    var t := Keys(SyncBlock);
    FoundExactly(Keys(ApiBlock), text);
    FoundExactly(Keys(PostgresBlock), text);
    FoundExactly(t, text);
    assert t[0].0 == "interval" && t[1].0 == "prob" && t[2].0 == "ratelimit";
    assert Keys(ApiBlock)[0].0 == "listen" && Keys(PostgresBlock)[0].0 == "dsn";
  }

  lemma NacosNames(text: string)
    ensures Find(Keys(NacosBlock), text).Some? <==>
            || text == "addr" || text == "namespace" || text == "group"
            || text == "data_id_prefix" || text == "username" || text == "password"
  {
    var t := Keys(NacosBlock);
    FoundExactly(t, text);
    assert t[0].0 == "addr" && t[1].0 == "namespace" && t[2].0 == "group";
    assert t[3].0 == "data_id_prefix" && t[4].0 == "username" && t[5].0 == "password";
  }

  // ---- the empty file ----

  /** An empty text, and one of comments only, read as the documented defaults. */
  lemma EmptyReads(nums: Numbers, comment: string)
    requires '\n' !in comment
    ensures var documented := Config(":5300", 0, true, true, ":8080", "",
                                     Nacos("", "", "DEFAULT_GROUP", "dns_weights:", "", ""), "30s", "0.01", 100);
      ReadText(nums, "") == Parsed(documented) && ReadText(nums, "#" + comment) == Parsed(documented)
  {
    var line := "#" + comment;
    LinesExactly(line, "");
    assert DropCR(line)[0] == '#';
    var rest := DropCR(line)[1..];
    assert DropCR(line) == "" + "#" + rest;
    CommentIgnored("", rest);
    assert StripComment("") == "";
    OneLine(DropCR(line));
    assert Lex("") == Some([]) && Texts([]) == [];
    assert LineTexts([]) == Some([]);
  }
}
