/** The configuration, its defaults, and the parser that fills it from tokens. */
module Corefile {
  import opened Records
  import opened Lexer
  import opened Decimal

  /** Durations and probabilities are kept as the text that was accepted. */
  datatype Config = Config(listen: string, workers: int, tcp: bool, edns0: bool, api: string, dsn: string,
                           nacos: Nacos, interval: string, prob: string, rateLimit: int)

  datatype Nacos = Nacos(addr: string, namespace: string, group: string, prefix: string,
                         username: string, password: string)

  const DEFAULTS := Config(":5300", 0, true, true, ":8080", "", Nacos("", "", "DEFAULT_GROUP", "dns_weights:", "", ""),
                           "30s", "0.01", 100)

  /** Which texts the duration and float parsers accept. */
  datatype Numbers = Numbers(duration: string -> bool, float: string -> bool)

  datatype Block = MainBlock | ApiBlock | PostgresBlock | NacosBlock | SyncBlock

  /** Where the parser gave up, as the number of tokens that were left there. */
  datatype Error = Eof | Expected(left: nat) | NeedsValue(left: nat) | UnknownKey(left: nat) | BadValue(left: nat)

  datatype Outcome = Failed(error: Error) | Done(config: Config, rest: seq<string>)

  datatype Key = Listen | Workers | Tcp | Edns0 | ApiListen | Dsn
               | Addr | Namespace | Group | Prefix | Username | Password | Interval | Prob | RateLimit

  /** First entry of a table with the given text. */
  function Find<T>(table: seq<(string, T)>, text: string): Option<T> {
    if table == [] then None
    else if table[0].0 == text then Some(table[0].1)
    else Find(table[1..], text)
  }

  /** The keys of each block. */
  function Keys(b: Block): seq<(string, Key)> {
    match b
    case MainBlock => [("listen", Listen), ("workers", Workers), ("tcp", Tcp), ("edns0", Edns0)]
    case ApiBlock => [("listen", ApiListen)]
    case PostgresBlock => [("dsn", Dsn)]
    case NacosBlock => [("addr", Addr), ("namespace", Namespace), ("group", Group), ("data_id_prefix", Prefix),
                        ("username", Username), ("password", Password)]
    case SyncBlock => [("interval", Interval), ("prob", Prob), ("ratelimit", RateLimit)]
  }

  /** The sub-blocks, which only the main block has. */
  function SubBlocks(b: Block): seq<(string, Block)> {
    if b.MainBlock?
    then [("api", ApiBlock), ("postgres", PostgresBlock), ("nacos", NacosBlock), ("sync", SyncBlock)]
    else []
  }

  lemma SubBlockIsFlat(text: string)
    ensures Find(SubBlocks(MainBlock), text).Some? ==> SubBlocks(Find(SubBlocks(MainBlock), text).value) == []
  {
    FindMember(SubBlocks(MainBlock), text);
  }

  /** What is found is in the table. */
  lemma {:induction false} FindMember<T>(table: seq<(string, T)>, text: string)
    ensures Find(table, text).Some? ==> exists i :: 0 <= i < |table| && table[i] == (text, Find(table, text).value)
    decreases |table|
  {
    if table == [] {
    } else if table[0].0 == text {
      assert table[0] == (text, Find(table, text).value);
    } else {
      FindMember(table[1..], text);
      if Find(table, text).Some? {
        var i :| 0 <= i < |table[1..]| && table[1..][i] == (text, Find(table, text).value);
        assert table[i + 1] == (text, Find(table, text).value);
      }
    }
  }

  predicate IsTruthy(s: string) {
    s == "true" || s == "1" || s == "yes"
  }

  /** The configuration with one key set, or nothing when the value is not acceptable for it. */
  function SetKey(nums: Numbers, k: Key, v: string, c: Config): Option<Config> {
    match k
    case Listen => Some(c.(listen := v))
    case Workers => (match Atoi(v) case None => None case Some(n) => Some(c.(workers := n)))
    case Tcp => Some(c.(tcp := IsTruthy(v)))
    case Edns0 => Some(c.(edns0 := IsTruthy(v)))
    case ApiListen => Some(c.(api := v))
    case Dsn => Some(c.(dsn := v))
    case Addr => Some(c.(nacos := c.nacos.(addr := v)))
    case Namespace => Some(c.(nacos := c.nacos.(namespace := v)))
    case Group => Some(c.(nacos := c.nacos.(group := v)))
    case Prefix => Some(c.(nacos := c.nacos.(prefix := v)))
    case Username => Some(c.(nacos := c.nacos.(username := v)))
    case Password => Some(c.(nacos := c.nacos.(password := v)))
    case Interval => if nums.duration(v) then Some(c.(interval := v)) else None
    case Prob => if nums.float(v) then Some(c.(prob := v)) else None
    case RateLimit => (match Atoi(v) case None => None case Some(n) => Some(c.(rateLimit := n)))
  }

  /** One block, from just after its opening brace. */
  function ParseBlock(nums: Numbers, b: Block, toks: seq<string>, c: Config): (out: Outcome)
    ensures out.Done? ==> |out.rest| < |toks|
    decreases |toks|
  {
    if toks == [] then Failed(Eof)
    else if toks[0] == "}" then Done(c, toks[1..])
    else if Find(SubBlocks(b), toks[0]).Some? then
      if |toks| < 2 then Failed(Eof)
      else if toks[1] != "{" then Failed(Expected(|toks| - 1))
      else
        match ParseBlock(nums, Find(SubBlocks(b), toks[0]).value, toks[2..], c)
        case Failed(e) => Failed(e)
        case Done(c', rest) => ParseBlock(nums, b, rest, c')
    else if Find(Keys(b), toks[0]).None? then Failed(UnknownKey(|toks|))
    else if |toks| < 2 || toks[1] == "}" then Failed(NeedsValue(|toks|))
    else
      match SetKey(nums, Find(Keys(b), toks[0]).value, toks[1], c)
      case None => Failed(BadValue(|toks|))
      case Some(c') => ParseBlock(nums, b, toks[2..], c')
  }

  datatype Result = Bad(error: Error) | Good(config: Config)

  /** No token at all means the defaults; what follows the closing brace is never looked at. */
  function ParseTokens(nums: Numbers, toks: seq<string>): Result {
    if toks == [] then Good(DEFAULTS)
    else if toks[0] != "dns-edge" then Bad(Expected(|toks|))
    else if |toks| < 2 then Bad(Eof)
    else if toks[1] != "{" then Bad(Expected(|toks| - 1))
    else
      match ParseBlock(nums, MainBlock, toks[2..], DEFAULTS)
      case Failed(e) => Bad(e)
      case Done(c, _) => Good(c)
  }

  // ---- what follows an accepted block does not matter ----

  lemma {:induction false} BlockIgnoresTail(nums: Numbers, b: Block, toks: seq<string>, c: Config, more: seq<string>)
    requires ParseBlock(nums, b, toks, c).Done?
    ensures ParseBlock(nums, b, toks + more, c) ==
            Done(ParseBlock(nums, b, toks, c).config, ParseBlock(nums, b, toks, c).rest + more)
    decreases |toks|
  {
    var all := toks + more;
    assert all[0] == toks[0];
    if toks[0] == "}" {
      assert all[1..] == toks[1..] + more;
    } else {
      assert all[1] == toks[1] && all[2..] == toks[2..] + more;
      if Find(SubBlocks(b), toks[0]).Some? {
        var sub := Find(SubBlocks(b), toks[0]).value;
        BlockIgnoresTail(nums, sub, toks[2..], c, more);
        var inner := ParseBlock(nums, sub, toks[2..], c);
        BlockIgnoresTail(nums, b, inner.rest, inner.config, more);
      } else {
        BlockIgnoresTail(nums, b, toks[2..], SetKey(nums, Find(Keys(b), toks[0]).value, toks[1], c).value, more);
      }
    }
  }

  /** Appending any tokens to an accepted, non-empty token list leaves the result unchanged. */
  lemma ParseIgnoresTail(nums: Numbers, toks: seq<string>, more: seq<string>)
    requires toks != [] && ParseTokens(nums, toks).Good?
    ensures ParseTokens(nums, toks + more) == ParseTokens(nums, toks)
  {
    BlockIgnoresTail(nums, MainBlock, toks[2..], DEFAULTS, more);
    assert (toks + more)[2..] == toks[2..] + more;
  }

  // ---- the parser object ----

  class Parser {
    const tokens: seq<Tok>
    const nums: Numbers
    var pos: nat

    constructor (tokens: seq<Tok>, nums: Numbers)
      ensures this.tokens == tokens && this.nums == nums && pos == 0
    {
      this.tokens := tokens;
      this.nums := nums;
      pos := 0;
    }

    /** The texts not yet consumed. */
    ghost function Left(): seq<string>
      requires pos <= |tokens|
      reads this
    {
      TextsOf(tokens)[pos..]
    }

    /** The key at the cursor and its value. */
    method ParseKey(b: Block, c: Config) returns (r: Result)
      requires pos < |tokens|
      modifies this
      ensures old(pos) <= pos <= |tokens|
      ensures var toks := old(Left());
        if Find(Keys(b), toks[0]).None? then r == Bad(UnknownKey(|toks|))
        else if |toks| < 2 || toks[1] == "}" then r == Bad(NeedsValue(|toks|))
        else
          match SetKey(nums, Find(Keys(b), toks[0]).value, toks[1], c)
          case None => r == Bad(BadValue(|toks|))
          case Some(c') => r == Good(c') && Left() == toks[2..] && old(pos) < pos
    {
      var key := Find(Keys(b), tokens[pos].text);
      if key.None? {
        return Bad(UnknownKey(|tokens| - pos));
      }
      if pos + 1 >= |tokens| || tokens[pos + 1].text == "}" {
        return Bad(NeedsValue(|tokens| - pos));
      }
      assert Left()[2..] == TextsOf(tokens)[pos + 2..];
      var next := SetKey(nums, key.value, tokens[pos + 1].text, c);
      if next.None? {
        return Bad(BadValue(|tokens| - pos));
      }
      pos := pos + 2;
      r := Good(next.value);
    }

    /** A block without sub-blocks: api, postgres, nacos or sync. */
    method ParseSub(b: Block, c0: Config) returns (r: Result)
      requires pos <= |tokens| && SubBlocks(b) == []
      modifies this
      ensures old(pos) <= pos <= |tokens|
      ensures match ParseBlock(nums, b, old(Left()), c0)
              case Failed(e) => r == Bad(e)
              case Done(c, rest) => r == Good(c) && Left() == rest && old(pos) < pos
    {
      ghost var out := ParseBlock(nums, b, Left(), c0);
      var c := c0;
      while true
        invariant old(pos) <= pos <= |tokens|
        invariant ParseBlock(nums, b, Left(), c) == out
        decreases |tokens| - pos
      {
        if pos >= |tokens| {
          return Bad(Eof);
        }
        assert Left()[0] == tokens[pos].text;
        if tokens[pos].text == "}" {
          assert Left()[1..] == TextsOf(tokens)[pos + 1..];
          pos := pos + 1;
          return Good(c);
        }
        r := ParseKey(b, c);
        if r.Bad? {
          return;
        }
        c := r.config;
      }
    }

    /** The sub-block named by the token just read: its brace, then its body. */
    method ParseNested(b: Block, c: Config) returns (r: Result)
      requires pos < |tokens| && SubBlocks(b) == []
      modifies this
      ensures old(pos) <= pos <= |tokens|
      ensures
        if |old(Left())| < 2 then r == Bad(Eof)
        else if old(Left())[1] != "{" then r == Bad(Expected(|old(Left())| - 1))
        else
          match ParseBlock(nums, b, old(Left())[2..], c)
          case Failed(e) => r == Bad(e)
          case Done(c', rest) => r == Good(c') && Left() == rest && old(pos) < pos
    {
      if pos + 1 >= |tokens| {
        return Bad(Eof);
      }
      if tokens[pos + 1].text != "{" {
        return Bad(Expected(|tokens| - pos - 1));
      }
      assert Left()[2..] == TextsOf(tokens)[pos + 2..];
      pos := pos + 2;
      r := ParseSub(b, c);
    }

    method ParseMain(c0: Config) returns (r: Result)
      requires pos <= |tokens|
      modifies this
      ensures match ParseBlock(nums, MainBlock, old(Left()), c0)
              case Failed(e) => r == Bad(e)
              case Done(c, _) => r == Good(c)
    {
      ghost var out := ParseBlock(nums, MainBlock, Left(), c0);
      var c := c0;
      while true
        invariant pos <= |tokens|
        invariant ParseBlock(nums, MainBlock, Left(), c) == out
        decreases |tokens| - pos
      {
        if pos >= |tokens| {
          return Bad(Eof);
        }
        var key := tokens[pos].text;
        assert Left()[0] == key;
        if key == "}" {
          return Good(c);
        }
        var sub := Find(SubBlocks(MainBlock), key);
        if sub.Some? {
          SubBlockIsFlat(key);
          r := ParseNested(sub.value, c);
        } else {
          r := ParseKey(MainBlock, c);
        }
        if r.Bad? {
          return;
        }
        c := r.config;
      }
    }

    method Parse() returns (r: Result)
      requires pos == 0
      modifies this
      ensures r == ParseTokens(nums, TextsOf(tokens))
    {
      assert Left() == TextsOf(tokens);
      if |tokens| == 0 {
        return Good(DEFAULTS);
      }
      if tokens[0].text != "dns-edge" {
        return Bad(Expected(|tokens|));
      }
      if |tokens| < 2 {
        return Bad(Eof);
      }
      if tokens[1].text != "{" {
        return Bad(Expected(|tokens| - 1));
      }
      pos := 2;
      r := ParseMain(DEFAULTS);
    }
  }

  datatype Read = LexError | ParseError(error: Error) | Parsed(config: Config)

  /** The configuration a text stands for. */
  function ReadText(nums: Numbers, text: string): Read {
    match LineTexts(Lines(text))
    case None => LexError
    case Some(toks) =>
      match ParseTokens(nums, toks)
      case Bad(e) => ParseError(e)
      case Good(c) => Parsed(c)
  }

  /** The whole reader. */
  method ParseText(nums: Numbers, text: string) returns (r: Read)
    ensures r == ReadText(nums, text)
  {
    var toks := Tokenize(Lines(text));
    if toks.None? {
      return LexError;
    }
    var p := new Parser(toks.value, nums);
    var res := p.Parse();
    match res
    case Bad(e) => r := ParseError(e);
    case Good(c) => r := Parsed(c);
  }
}
