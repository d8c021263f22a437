/** `generateAIStrategy` and the pieces of `executeStrategy` that turn a
    strategy into `createStrategy` arguments: cutting the JSON candidate out
    of the model's reply, validating the parsed object, the fixed fallback
    strategy, and the token address table. */
module Strategy {
  import opened Wrappers
  import opened Records
  import opened Json

  // ---------------------------------------------------------------------
  // Cutting the candidate out of the reply: /\{[\s\S]*\}/
  // ---------------------------------------------------------------------

  /** The position of the first `c` in `s`. */
  function FirstIndexOf(s: string, c: char): (o: Option<nat>)
    ensures o.Some? ==> o.value < |s| && s[o.value] == c && forall k :: 0 <= k < o.value ==> s[k] != c
    ensures o.None? <==> c !in s
  {
    if |s| == 0 then None
    else if s[0] == c then Some(0)
    else
      assert s == [s[0]] + s[1..];
      match FirstIndexOf(s[1..], c)
      case Some(i) => Some(i + 1)
      case None => None
  }

  /** The position of the last `c` in `s`. */
  function LastIndexOf(s: string, c: char): (o: Option<nat>)
    ensures o.Some? ==> o.value < |s| && s[o.value] == c && forall k :: o.value < k < |s| ==> s[k] != c
    ensures o.None? <==> c !in s
  {
    if |s| == 0 then None
    else if s[|s| - 1] == c then Some(|s| - 1)
    else
      assert s == s[..|s| - 1] + [s[|s| - 1]];
      LastIndexOf(s[..|s| - 1], c)
  }

  /** `reply.match(/\{[\s\S]*\}/)[0]`: everything from the first `{` through
      the last `}`, when some `{` comes before some `}`. */
  function ExtractCandidate(reply: string): (candidate: Option<string>)
    ensures candidate.Some? <==> exists i, j :: 0 <= i < j < |reply| && reply[i] == '{' && reply[j] == '}'
    ensures candidate.Some? ==>
      var c := candidate.value; |c| >= 2 && c[0] == '{' && c[|c| - 1] == '}'
  {
    match (FirstIndexOf(reply, '{'), LastIndexOf(reply, '}'))
    case (Some(i), Some(j)) => if i < j then Some(reply[i..j + 1]) else None
    case _ => None
  }

  /** The regular expression matches `reply[i..j]`: a `{`, any characters
      at all (line breaks included), and a `}`. */
  predicate IsMatch(reply: string, i: int, j: int)
  {
    0 <= i && i + 2 <= j <= |reply| && reply[i] == '{' && reply[j - 1] == '}'
  }

  /** The match a backtracking engine reports for a pattern ending in a
      greedy star: it starts as early as possible and, from there, runs as
      far as possible. */
  ghost predicate LeftmostGreedy(reply: string, i: int, j: int)
  {
    && IsMatch(reply, i, j)
    && (forall i', j' :: IsMatch(reply, i', j') ==> i <= i')
    && (forall j' :: IsMatch(reply, i, j') ==> j' <= j)
  }

  /** What the extraction returns is the regular expression's match, and
      it returns nothing exactly when the expression does not match. */
  lemma ExtractIsRegexMatch(reply: string)
    ensures ExtractCandidate(reply).Some? ==>
      exists i, j :: LeftmostGreedy(reply, i, j) && ExtractCandidate(reply).value == reply[i..j]
    ensures ExtractCandidate(reply).None? <==> forall i, j :: !IsMatch(reply, i, j)
  {
    var first := FirstIndexOf(reply, '{');
    var last := LastIndexOf(reply, '}');
    if first.Some? && last.Some? && first.value < last.value {
      var i, j := first.value, last.value + 1;
      assert IsMatch(reply, i, j);
      forall i', j' | IsMatch(reply, i', j') ensures i <= i' {
        assert reply[i'] == '{';
      }
      forall j' | IsMatch(reply, i, j') ensures j' <= j {
        assert reply[j' - 1] == '}';
      }
      assert LeftmostGreedy(reply, i, j);
    } else {
      forall i, j | IsMatch(reply, i, j) ensures false { }
    }
  }

  /** There is only one leftmost-greedy match, so the extraction is the
      match whenever one exists. */
  lemma RegexMatchIsExtract(reply: string, i: int, j: int)
    requires LeftmostGreedy(reply, i, j)
    ensures ExtractCandidate(reply) == Some(reply[i..j])
  {
    ExtractIsRegexMatch(reply);
    assert ExtractCandidate(reply).Some?;
    var i', j' :| LeftmostGreedy(reply, i', j') && ExtractCandidate(reply).value == reply[i'..j'];
    assert i <= i' && i' <= i;
  }

  // ---------------------------------------------------------------------
  // Validation and the fallback
  // ---------------------------------------------------------------------

  /** The structural check on the parsed object: `name` is truthy and
      `tokens` is an array. Reading from `null` throws, which rejects it
      as well. Only an object can pass. */
  predicate IsValidStrategy(strategy: Value)
    ensures IsValidStrategy(strategy) ==> strategy.Obj? && Truthy(strategy)
  {
    var name := Member(Defined(strategy), "name");
    var tokens := Member(Defined(strategy), "tokens");
    AccessTruthy(name) && AccessTruthy(tokens) && tokens.value.Arr?
  }

  /** The check accepts exactly the objects holding a truthy `name` and an
      array `tokens`; no array, string, number, boolean or `null` passes. */
  lemma ValidStrategyShape(strategy: Value)
    ensures IsValidStrategy(strategy) <==>
      && strategy.Obj?
      && (exists n :: Get(strategy.fields, "name") == Some(n) && Truthy(n))
      && (exists ts :: Get(strategy.fields, "tokens") == Some(Arr(ts)))
  {
    if IsValidStrategy(strategy) {
      var n := Member(Defined(strategy), "name").value;
      var t := Member(Defined(strategy), "tokens").value;
      assert Get(strategy.fields, "name") == Some(n);
      assert Get(strategy.fields, "tokens") == Some(Arr(t.items));
    }
  }

  /** One entry of a strategy's `tokens`. */
  function TokenEntry(symbol: string, percentage: real, reason: string): Value
  {
    Obj([("symbol", Str(symbol)), ("percentage", Num(percentage)), ("reason", Str(reason))])
  }

  /** A strategy object with the five members the prompt asks for. */
  function StrategyObject(name: string, tokens: seq<Value>, reasoning: string, risks: string, outcome: string): Value
  {
    Obj([("name", Str(name)), ("tokens", Arr(tokens)), ("reasoning", Str(reasoning)),
         ("risks", Str(risks)), ("expectedOutcome", Str(outcome))])
  }

  const FallbackName: string := "Defensive Market Strategy"

  const FallbackTokens: seq<Value> := [
    TokenEntry("USDC", 40.0, "Stable store of value during volatility"),
    TokenEntry("ETH", 35.0, "Blue chip crypto with strong fundamentals"),
    TokenEntry("BTC", 25.0, "Digital gold, hedge against inflation")
  ]

  /** The strategy returned whenever the model's answer cannot be used. */
  const FallbackStrategy: Value := StrategyObject(
    FallbackName,
    FallbackTokens,
    "Given the current market volatility and your defensive stance, this allocation prioritizes stability while maintaining exposure to proven cryptocurrencies.",
    "Market risk remains present, but reduced through stablecoin allocation.",
    "Reduced portfolio volatility with maintained growth potential.")

  /** The symbol and percentage of a token entry, when it is an object
      holding a string symbol and a number percentage. */
  function Allocation(token: Value): Option<(string, real)>
  {
    if !token.Obj? then None
    else
      var symbol: Option<Value> := Get(token.fields, "symbol");
      var percentage: Option<Value> := Get(token.fields, "percentage");
      if symbol.Some? && symbol.value.Str? && percentage.Some? && percentage.value.Num?
      then Some((symbol.value.s, percentage.value.n))
      else None
  }

  lemma TokenEntryAllocation(symbol: string, percentage: real, reason: string)
    ensures Allocation(TokenEntry(symbol, percentage, reason)) == Some((symbol, percentage))
  {
    var fields := TokenEntry(symbol, percentage, reason).fields;
    assert "reason" != "symbol" by { assert "reason"[0] != "symbol"[0]; }
    LastIndexUnique(fields, "symbol", 0);
    LastIndexUnique(fields, "percentage", 1);
  }

  /** A strategy object with a non-empty name passes the check, and reads
      back each of its five members. */
  lemma StrategyObjectFields(name: string, tokens: seq<Value>, reasoning: string, risks: string, outcome: string)
    ensures var v := StrategyObject(name, tokens, reasoning, risks, outcome);
      && Member(Defined(v), "name") == Defined(Str(name))
      && Member(Defined(v), "tokens") == Defined(Arr(tokens))
      && Member(Defined(v), "reasoning") == Defined(Str(reasoning))
      && Member(Defined(v), "risks") == Defined(Str(risks))
      && Member(Defined(v), "expectedOutcome") == Defined(Str(outcome))
      && (|name| > 0 ==> IsValidStrategy(v))
  {
    StrategyObjectHead(name, tokens, reasoning, risks, outcome);
    StrategyObjectTexts(name, tokens, reasoning, risks, outcome);
  }

  lemma StrategyObjectHead(name: string, tokens: seq<Value>, reasoning: string, risks: string, outcome: string)
    ensures var v := StrategyObject(name, tokens, reasoning, risks, outcome);
      && Member(Defined(v), "name") == Defined(Str(name))
      && Member(Defined(v), "tokens") == Defined(Arr(tokens))
  {
    var fields := StrategyObject(name, tokens, reasoning, risks, outcome).fields;
    LastIndexUnique(fields, "name", 0);
    LastIndexUnique(fields, "tokens", 1);
  }

  lemma StrategyObjectTexts(name: string, tokens: seq<Value>, reasoning: string, risks: string, outcome: string)
    ensures var v := StrategyObject(name, tokens, reasoning, risks, outcome);
      && Member(Defined(v), "reasoning") == Defined(Str(reasoning))
      && Member(Defined(v), "risks") == Defined(Str(risks))
      && Member(Defined(v), "expectedOutcome") == Defined(Str(outcome))
  {
    var fields := StrategyObject(name, tokens, reasoning, risks, outcome).fields;
    LastIndexUnique(fields, "reasoning", 2);
    LastIndexUnique(fields, "risks", 3);
    LastIndexUnique(fields, "expectedOutcome", 4);
  }

  /** The numeric percentage of a token entry, or 0. */
  function PercentOf(token: Value): real
  {
    match Allocation(token)
    case Some(a) => a.1
    case None => 0.0
  }

  /** The sum of the numeric percentages of the token entries. */
  function PercentTotal(tokens: seq<Value>): real
  {
    if |tokens| == 0 then 0.0
    else PercentTotal(tokens[..|tokens| - 1]) + PercentOf(tokens[|tokens| - 1])
  }

  lemma PercentTotalOfThree(a: Value, b: Value, c: Value)
    ensures PercentTotal([a, b, c]) == PercentOf(a) + PercentOf(b) + PercentOf(c)
  {
    assert [a, b, c][..2] == [a, b] && [a, b][..1] == [a] && [a][..0] == [];
    assert PercentTotal([a]) == PercentOf(a);
    assert PercentTotal([a, b]) == PercentOf(a) + PercentOf(b);
  }

  /** The fallback is named "Defensive Market Strategy", passes the
      structural check, and allocates USDC 40, ETH 35 and BTC 25, in that
      order, for a total of 100. */
  lemma FallbackShape()
    ensures IsValidStrategy(FallbackStrategy)
    ensures Member(Defined(FallbackStrategy), "name") == Defined(Str(FallbackName))
    ensures Member(Defined(FallbackStrategy), "tokens") == Defined(Arr(FallbackTokens))
    ensures Member(Defined(FallbackStrategy), "reasoning").Defined? && Member(Defined(FallbackStrategy), "reasoning").value.Str?
    ensures Member(Defined(FallbackStrategy), "risks").Defined? && Member(Defined(FallbackStrategy), "risks").value.Str?
    ensures Member(Defined(FallbackStrategy), "expectedOutcome").Defined?
            && Member(Defined(FallbackStrategy), "expectedOutcome").value.Str?
    ensures |FallbackTokens| == 3
    ensures Allocation(FallbackTokens[0]) == Some(("USDC", 40.0))
    ensures Allocation(FallbackTokens[1]) == Some(("ETH", 35.0))
    ensures Allocation(FallbackTokens[2]) == Some(("BTC", 25.0))
    ensures PercentTotal(FallbackTokens) == 100.0
  {
    StrategyObjectFields(FallbackName, FallbackTokens,
      "Given the current market volatility and your defensive stance, this allocation prioritizes stability while maintaining exposure to proven cryptocurrencies.",
      "Market risk remains present, but reduced through stablecoin allocation.",
      "Reduced portfolio volatility with maintained growth potential.");
    FallbackAllocations(FallbackTokens);
  }

  lemma FallbackAllocations(ts: seq<Value>)
    requires ts == FallbackTokens
    ensures |ts| == 3
    ensures Allocation(ts[0]) == Some(("USDC", 40.0))
    ensures Allocation(ts[1]) == Some(("ETH", 35.0))
    ensures Allocation(ts[2]) == Some(("BTC", 25.0))
    ensures PercentTotal(ts) == 100.0
  {
    TokenEntryAllocation("USDC", 40.0, "Stable store of value during volatility");
    TokenEntryAllocation("ETH", 35.0, "Blue chip crypto with strong fundamentals");
    TokenEntryAllocation("BTC", 25.0, "Digital gold, hedge against inflation");
    PercentTotalOfThree(ts[0], ts[1], ts[2]);
    assert ts == [ts[0], ts[1], ts[2]];
  }

  // ---------------------------------------------------------------------
  // generateAIStrategy
  // ---------------------------------------------------------------------

  /** What came back from the model's HTTP endpoint: the status flag and
      the body, or `None` when the body is not JSON. */
  datatype HttpReply = HttpReply(ok: bool, body: Option<Value>)

  /** `data.candidates[0].content.parts[0].text`, when it is a string (any
      other value makes the following `.match` call throw). */
  function ReplyText(data: Value): (text: Option<string>)
    ensures text.Some? ==> data.Obj?
  {
    var candidate := Element0(Member(Defined(data), "candidates"));
    var part := Element0(Member(Member(candidate, "content"), "parts"));
    match Member(part, "text")
    case Defined(Str(s)) => Some(s)
    case _ => None
  }

  /** A reply of the documented shape, `{"candidates": [{"content":
      {"parts": [{"text": t}, ...]}}, ...]}` with any further members,
      yields `t` when it is a string and nothing otherwise. */
  lemma ReplyTextReads(data: Value, candidates: seq<Value>, content: Value, parts: seq<Value>, text: Value)
    requires data.Obj? && Get(data.fields, "candidates") == Some(Arr(candidates)) && |candidates| > 0
    requires candidates[0].Obj? && Get(candidates[0].fields, "content") == Some(content)
    requires content.Obj? && Get(content.fields, "parts") == Some(Arr(parts)) && |parts| > 0
    requires parts[0].Obj? && Get(parts[0].fields, "text") == Some(text)
    ensures ReplyText(data) == if text.Str? then Some(text.s) else None
  {
    MemberOfObject(data.fields, "candidates", Arr(candidates));
    MemberOfObject(candidates[0].fields, "content", content);
    MemberOfObject(content.fields, "parts", Arr(parts));
    MemberOfObject(parts[0].fields, "text", text);
  }

  /** Conversely, a text is only found as the string member `text` of the
      first element of `parts`, a member of `content`, a member of the
      first element of `candidates`, a member of the reply. "First
      element" is `[0]`: an array's first entry, or an object's member
      `"0"`. */
  lemma ReplyTextSource(data: Value, s: string)
    returns (candidates: Value, candidate: Value, content: Value, parts: Value, part: Value)
    requires ReplyText(data) == Some(s)
    ensures data.Obj? && Get(data.fields, "candidates") == Some(candidates)
    ensures Element0(Defined(candidates)) == Defined(candidate)
    ensures candidate.Obj? && Get(candidate.fields, "content") == Some(content)
    ensures content.Obj? && Get(content.fields, "parts") == Some(parts)
    ensures Element0(Defined(parts)) == Defined(part)
    ensures part.Obj? && Get(part.fields, "text") == Some(Str(s))
  {
    candidates := Member(Defined(data), "candidates").value;
    candidate := Element0(Member(Defined(data), "candidates")).value;
    content := Member(Defined(candidate), "content").value;
    parts := Member(Defined(content), "parts").value;
    part := Element0(Member(Defined(content), "parts")).value;
  }

  /** The strategy the model's answer yields when every step succeeds:
      the request went through (`reply` is `None` when `fetch` rejects),
      the status is OK, the body and the candidate parse, and the result
      passes the check. `parseJson` stands for `JSON.parse`, with `None`
      for a syntax error. */
  function StrategyFromReply(reply: Option<HttpReply>, parseJson: string -> Option<Value>): (strategy: Option<Value>)
    ensures strategy.Some? ==> IsValidStrategy(strategy.value)
  {
    if reply.None? || reply.value.body.None? || !reply.value.ok then None
    else
      match ReplyText(reply.value.body.value)
      case None => None
      case Some(text) =>
        match ExtractCandidate(text)
        case None => None
        case Some(candidate) =>
          match parseJson(candidate)
          case None => None
          case Some(v) => if IsValidStrategy(v) then Some(v) else None
  }

  /** `generateAIStrategy`: never throws, and always returns a strategy
      that passes the structural check, the fallback when anything went
      wrong. */
  function GenerateAIStrategy(reply: Option<HttpReply>, parseJson: string -> Option<Value>): (strategy: Value)
    ensures IsValidStrategy(strategy)
    ensures strategy != FallbackStrategy ==> StrategyFromReply(reply, parseJson) == Some(strategy)
  {
    FallbackShape();
    match StrategyFromReply(reply, parseJson)
    case Some(v) => v
    case None => FallbackStrategy
  }

  /** A well-formed answer is returned as parsed. */
  lemma GenerateAccepts(reply: HttpReply, text: string, candidate: string,
                        parseJson: string -> Option<Value>, v: Value)
    requires reply.ok && reply.body.Some? && ReplyText(reply.body.value) == Some(text)
    requires ExtractCandidate(text) == Some(candidate) && parseJson(candidate) == Some(v)
    requires IsValidStrategy(v)
    ensures GenerateAIStrategy(Some(reply), parseJson) == v
  {
  }

  /** Each failure gives the fallback: a rejected request, a body that is
      not JSON, a non-OK status, a reply without text, text without a
      candidate, a candidate that does not parse, or a parsed value that
      fails the check. */
  lemma GenerateFallsBack(reply: Option<HttpReply>, parseJson: string -> Option<Value>)
    requires
      || reply.None?
      || reply.value.body.None?
      || !reply.value.ok
      || ReplyText(reply.value.body.value).None?
      || ExtractCandidate(ReplyText(reply.value.body.value).value).None?
      || parseJson(ExtractCandidate(ReplyText(reply.value.body.value).value).value).None?
      || !IsValidStrategy(parseJson(ExtractCandidate(ReplyText(reply.value.body.value).value).value).value)
    ensures GenerateAIStrategy(reply, parseJson) == FallbackStrategy
  {
  }

  // ---------------------------------------------------------------------
  // Token addresses
  // ---------------------------------------------------------------------

  const ZeroAddress: string := "0x0000000000000000000000000000000000000000"
  const UsdcAddress: string := "0x1c7D4B196Cb0C7B01d743Fbc6116a902379C7238"
  const UsdtAddress: string := "0x7169D38820dfd117C3FA1f22a697dBA58d90BA06"
  const DaiAddress: string := "0x68194a729C2450ad26072b3D33ADaCbcef39D574"

  /** The own members of the `tokenAddresses` object literal. */
  const TokenSymbols: set<string> := {"USDC", "USDT", "DAI"}

  /** The own member of the table under `key`, if any. */
  function TableAddress(key: string): (address: Option<string>)
    ensures address.Some? <==> key in TokenSymbols
  {
    if key == "USDC" then Some(UsdcAddress)
    else if key == "USDT" then Some(UsdtAddress)
    else if key == "DAI" then Some(DaiAddress)
    else None
  }

  /** None of the table's addresses is the zero address. */
  lemma TableAddressesNonZero()
    ensures UsdcAddress != ZeroAddress && UsdtAddress != ZeroAddress && DaiAddress != ZeroAddress
  {
    assert UsdcAddress[2] != ZeroAddress[2];
    assert UsdtAddress[2] != ZeroAddress[2];
    assert DaiAddress[2] != ZeroAddress[2];
  }

  /** `getTokenAddress` on the property key `key`, reading own members of
      the table only: the listed address (a non-empty string, so the `||`
      keeps it), or the zero address. */
  function GetTokenAddress(key: string): (address: string)
    ensures key == "USDC" ==> address == UsdcAddress
    ensures key == "USDT" ==> address == UsdtAddress
    ensures key == "DAI" ==> address == DaiAddress
    ensures address == ZeroAddress <==> key !in TokenSymbols
  {
    TableAddressesNonZero();
    match TableAddress(key)
    case Some(a) => if |a| > 0 then a else ZeroAddress
    case None => ZeroAddress
  }

  /** What `tokenAddresses[symbol]` reads on the plain object literal: an
      own member, a member inherited from `Object.prototype`, or nothing. */
  datatype AddressValue = Address(text: string) | PrototypeMember(name: string)

  /** `getTokenAddress` as written: a symbol naming an inherited member
      (`"constructor"`, `"toString"`, ...) reads that member, which is a
      function or an object and so truthy, and is returned in place of
      the zero address. */
  function TokenAddressAsWritten(key: string): (a: AddressValue)
    ensures key in TokenSymbols ==> a == Address(GetTokenAddress(key))
    ensures key !in TokenSymbols && key !in ObjectPrototypeMembers ==> a == Address(ZeroAddress)
  {
    match TableAddress(key)
    case Some(addr) => Address(addr)
    case None => if key in ObjectPrototypeMembers then PrototypeMember(key) else Address(ZeroAddress)
  }

  /** The code agrees with the intended lookup except on the inherited
      member names. */
  lemma AsWrittenLookupAgrees(key: string)
    ensures TokenAddressAsWritten(key) == Address(GetTokenAddress(key)) <==> key !in ObjectPrototypeMembers
  {
    if key in TokenSymbols {
      assert key !in ObjectPrototypeMembers;
    }
  }

  /** A strategy token named `"constructor"` is sent to the contract as
      `Object`, not as the zero address. */
  lemma ConstructorSymbolLeaks()
    ensures TokenAddressAsWritten("constructor") == PrototypeMember("constructor")
    ensures GetTokenAddress("constructor") == ZeroAddress
  {
  }

  // ---------------------------------------------------------------------
  // The createStrategy arguments
  // ---------------------------------------------------------------------

  /** The entry's `symbol` and `percentage` can be read and converted:
      the entry is not `null`, and neither value is an object holding its
      own `toString` or an array with such an element. Converting to a
      property key (`tokenAddresses[symbol]`), to a number
      (`percentage * 100`) and to text (a template literal) all throw
      exactly for such a value, since a parsed member is never a function
      and the remaining conversion method gives back the object itself. */
  predicate TokenPrintable(token: Value)
  {
    AccessPrintable(Member(Defined(token), "symbol")) && AccessPrintable(Member(Defined(token), "percentage"))
  }

  /** Every entry of `tokens` can be read and converted. */
  predicate AllPrintable(tokens: seq<Value>)
  {
    forall i :: 0 <= i < |tokens| ==> TokenPrintable(tokens[i])
  }

  /** Reading from a `null` entry throws, so a convertible list has none. */
  lemma AllPrintableNoNull(tokens: seq<Value>)
    requires AllPrintable(tokens)
    ensures Null !in tokens
  {
  }

  /** An entry with a string symbol and a numeric percentage converts. */
  lemma AllocationPrintable(token: Value)
    requires Allocation(token).Some?
    ensures TokenPrintable(token)
  {
    var symbol, percentage := Get(token.fields, "symbol"), Get(token.fields, "percentage");
    assert Member(Defined(token), "symbol") == Defined(symbol.value);
    assert Member(Defined(token), "percentage") == Defined(percentage.value);
  }

  /** A property of each of three elements holds of all of them. */
  lemma AllOfThree<T>(s: seq<T>, p: T -> bool)
    requires |s| == 3 && p(s[0]) && p(s[1]) && p(s[2])
    ensures forall i :: 0 <= i < |s| ==> p(s[i])
  {
  }

  /** The property key `tokenAddresses[symbol]` uses for the value read
      from `token.symbol`. `toKey` stands for `String()` on numbers, arrays
      and objects that convert. */
  function SymbolKey(symbol: Access, toKey: Value -> string): (key: string)
    requires !symbol.Thrown?
    ensures symbol == Undefined ==> key == "undefined"
    ensures symbol.Defined? && symbol.value.Str? ==> key == symbol.value.s
  {
    match symbol
    case Undefined => "undefined"
    case Defined(v) =>
      match v
      case Str(s) => s
      case Null => "null"
      case Bool(b) => if b then "true" else "false"
      case _ => toKey(v)
  }

  /** A percentage in basis points. */
  function TimesHundred(percentage: real): real
  {
    percentage * 100.0
  }

  /** `token.percentage * 100`, with `None` for `NaN`. `toNumber` stands
      for the number conversion of strings, arrays and objects that
      convert. */
  function BasisPoints(percentage: Access, toNumber: Value -> Option<real>): (bp: Option<real>)
    requires !percentage.Thrown?
    ensures percentage.Defined? && percentage.value.Num? ==> bp == Some(TimesHundred(percentage.value.n))
    ensures percentage == Undefined ==> bp == None
  {
    match percentage
    case Undefined => None
    case Defined(v) =>
      match v
      case Num(n) => Some(TimesHundred(n))
      case Null => Some(0.0)
      case Bool(b) => Some(if b then 100.0 else 0.0)
      case _ =>
        match toNumber(v)
        case Some(x) => Some(TimesHundred(x))
        case None => None
  }

  /** The address of one token entry. */
  function TokenAddressOf(token: Value, toKey: Value -> string): string
    requires token != Null
  {
    GetTokenAddress(SymbolKey(Member(Defined(token), "symbol"), toKey))
  }

  /** The basis points of one token entry. */
  function TokenBasisPoints(token: Value, toNumber: Value -> Option<real>): Option<real>
    requires token != Null
  {
    BasisPoints(Member(Defined(token), "percentage"), toNumber)
  }

  /** The first `map`: one address per token entry. */
  function AddressesOf(tokens: seq<Value>, toKey: Value -> string): (addresses: seq<string>)
    requires Null !in tokens
    ensures |addresses| == |tokens|
    ensures forall i :: 0 <= i < |tokens| ==> addresses[i] == TokenAddressOf(tokens[i], toKey)
  {
    if |tokens| == 0 then []
    else AddressesOf(tokens[..|tokens| - 1], toKey) + [TokenAddressOf(tokens[|tokens| - 1], toKey)]
  }

  /** The second `map`: one basis-point figure per token entry. */
  function BasisPointsOf(tokens: seq<Value>, toNumber: Value -> Option<real>): (bps: seq<Option<real>>)
    requires Null !in tokens
    ensures |bps| == |tokens|
    ensures forall i :: 0 <= i < |tokens| ==> bps[i] == TokenBasisPoints(tokens[i], toNumber)
  {
    if |tokens| == 0 then []
    else BasisPointsOf(tokens[..|tokens| - 1], toNumber) + [TokenBasisPoints(tokens[|tokens| - 1], toNumber)]
  }

  /** The `targetTokens` and `targetPercentages` arrays built from
      `tokens`: both aligned with it, or nothing when one of the `map`s
      throws, at a `null` entry or at a symbol or percentage that does not
      convert. */
  function EncodeTokens(tokens: seq<Value>, toKey: Value -> string, toNumber: Value -> Option<real>)
    : (arrays: Option<(seq<string>, seq<Option<real>>)>)
    ensures arrays.Some? <==> AllPrintable(tokens)
    ensures Null in tokens ==> arrays.None?
    ensures arrays.Some? ==> Null !in tokens && |arrays.value.0| == |tokens| && |arrays.value.1| == |tokens|
  {
    if !AllPrintable(tokens) then None
    else
      AllPrintableNoNull(tokens);
      Some((AddressesOf(tokens, toKey), BasisPointsOf(tokens, toNumber)))
  }

  /** An entry whose symbol is an object with its own `toString` stops the
      encoding, even though it is not `null`. */
  lemma UnconvertibleSymbolFails(token: Value, toKey: Value -> string, toNumber: Value -> Option<real>)
    requires token == Obj([("symbol", Obj([("toString", Num(0.0))])), ("percentage", Num(50.0))])
    ensures Null !in [token] && EncodeTokens([token], toKey, toNumber) == None
  {
    var symbol := Obj([("toString", Num(0.0))]);
    LastIndexUnique(token.fields, "symbol", 0);
    LastIndexUnique(symbol.fields, "toString", 0);
    assert Member(Defined(token), "symbol") == Defined(symbol);
    assert !TokenPrintable([token][0]);
  }

  /** The sum of the basis points, with `NaN` entries left out. */
  function BasisPointTotal(bps: seq<Option<real>>): real
  {
    if |bps| == 0 then 0.0
    else BasisPointTotal(bps[..|bps| - 1]) + bps[|bps| - 1].GetOr(0.0)
  }

  /** An entry with a numeric percentage `p` is sent as `100 * p` basis
      points. */
  lemma EntryBasisPoints(token: Value, toNumber: Value -> Option<real>)
    requires Allocation(token).Some?
    ensures token != Null && TokenBasisPoints(token, toNumber) == Some(TimesHundred(Allocation(token).value.1))
  {
    assert Get(token.fields, "percentage") == Some(Num(Allocation(token).value.1));
  }

  /** An entry with a string symbol and a numeric percentage is sent at
      its own position as the symbol's address and the percentage times
      100. */
  lemma ListsSendAllocation(items: seq<Value>, toKey: Value -> string, toNumber: Value -> Option<real>, i: nat)
    requires Null !in items && i < |items| && Allocation(items[i]).Some?
    ensures AddressesOf(items, toKey)[i] == GetTokenAddress(Allocation(items[i]).value.0)
    ensures BasisPointsOf(items, toNumber)[i] == Some(TimesHundred(Allocation(items[i]).value.1))
  {
    AddressAt(items, toKey, i);
    BasisPointsAt(items, toNumber, i);
  }

  lemma AddressAt(items: seq<Value>, toKey: Value -> string, i: nat)
    requires Null !in items && i < |items| && Allocation(items[i]).Some?
    ensures AddressesOf(items, toKey)[i] == GetTokenAddress(Allocation(items[i]).value.0)
  {
    EntrySymbol(items[i], toKey);
  }

  lemma BasisPointsAt(items: seq<Value>, toNumber: Value -> Option<real>, i: nat)
    requires Null !in items && i < |items| && Allocation(items[i]).Some?
    ensures BasisPointsOf(items, toNumber)[i] == Some(TimesHundred(Allocation(items[i]).value.1))
  {
    BasisPointsOfAt(items, toNumber, i);
    EntryBasisPointsAt(items, toNumber, i);
  }

  lemma EntryBasisPointsAt(items: seq<Value>, toNumber: Value -> Option<real>, i: nat)
    requires Null !in items && i < |items| && Allocation(items[i]).Some?
    ensures TokenBasisPoints(items[i], toNumber) == Some(TimesHundred(Allocation(items[i]).value.1))
  {
    EntryBasisPoints(items[i], toNumber);
  }

  lemma BasisPointsOfAt(items: seq<Value>, toNumber: Value -> Option<real>, i: nat)
    requires Null !in items && i < |items|
    ensures BasisPointsOf(items, toNumber)[i] == TokenBasisPoints(items[i], toNumber)
  {
  }

  /** When every entry is an object with a string symbol and a numeric
      percentage, the basis points are the percentages scaled by 100, so
      they total 100 times the percentages. */
  lemma {:induction false} BasisPointsScale(tokens: seq<Value>, toNumber: Value -> Option<real>)
    requires forall i :: 0 <= i < |tokens| ==> Allocation(tokens[i]).Some?
    ensures Null !in tokens
    ensures BasisPointTotal(BasisPointsOf(tokens, toNumber)) == 100.0 * PercentTotal(tokens)
  {
    forall i | 0 <= i < |tokens| ensures tokens[i] != Null {
      assert Allocation(tokens[i]).Some?;
    }
    if |tokens| > 0 {
      var init := tokens[..|tokens| - 1];
      var last := tokens[|tokens| - 1];
      forall i | 0 <= i < |init| ensures Allocation(init[i]).Some? {
        assert init[i] == tokens[i];
      }
      BasisPointsScale(init, toNumber);
      EntryBasisPoints(last, toNumber);
      var prev := BasisPointsOf(init, toNumber);
      var bps := prev + [TokenBasisPoints(last, toNumber)];
      assert bps[..|prev|] == prev;
    }
  }

  lemma AddressesOfThree(ts: seq<Value>, toKey: Value -> string, a0: string, a1: string, a2: string)
    requires |ts| == 3 && Null !in ts
    requires TokenAddressOf(ts[0], toKey) == a0 && TokenAddressOf(ts[1], toKey) == a1
    requires TokenAddressOf(ts[2], toKey) == a2
    ensures AddressesOf(ts, toKey) == [a0, a1, a2]
  {
    SeqOfThree(AddressesOf(ts, toKey), a0, a1, a2);
  }

  lemma BasisPointsOfThree(ts: seq<Value>, toNumber: Value -> Option<real>, b0: Option<real>, b1: Option<real>, b2: Option<real>)
    requires |ts| == 3 && Null !in ts
    requires TokenBasisPoints(ts[0], toNumber) == b0 && TokenBasisPoints(ts[1], toNumber) == b1
    requires TokenBasisPoints(ts[2], toNumber) == b2
    ensures BasisPointsOf(ts, toNumber) == [b0, b1, b2]
  {
    SeqOfThree(BasisPointsOf(ts, toNumber), b0, b1, b2);
  }

  lemma FallbackEncoding(ts: seq<Value>, toKey: Value -> string, toNumber: Value -> Option<real>)
    requires ts == FallbackTokens
    ensures var arrays := EncodeTokens(ts, toKey, toNumber);
      && arrays == Some(([UsdcAddress, ZeroAddress, ZeroAddress], [Some(4000.0), Some(3500.0), Some(2500.0)]))
      && BasisPointTotal(arrays.value.1) == 10000.0
  {
    FallbackAllocations(ts);
    AllocationPrintable(ts[0]);
    AllocationPrintable(ts[1]);
    AllocationPrintable(ts[2]);
    AllOfThree(ts, TokenPrintable);
    FallbackAddressList(ts, toKey);
    FallbackBasisPointList(ts, toNumber);
    BasisPointTotalOfThree(4000.0, 3500.0, 2500.0);
  }

  lemma BasisPointTotalOfThree(x: real, y: real, z: real)
    ensures BasisPointTotal([Some(x), Some(y), Some(z)]) == x + y + z
  {
    var bps := [Some(x), Some(y), Some(z)];
    var two := [Some(x), Some(y)];
    assert bps[..2] == two && two[..1] == [Some(x)] && [Some(x)][..0] == [];
    assert BasisPointTotal([Some(x)]) == x;
    assert BasisPointTotal(two) == x + y;
  }

  lemma FallbackAddressList(ts: seq<Value>, toKey: Value -> string)
    requires ts == FallbackTokens
    ensures Null !in ts && AddressesOf(ts, toKey) == [UsdcAddress, ZeroAddress, ZeroAddress]
  {
    FallbackEntriesSent(ts, toKey, v => Some(0.0));
    AddressesOfThree(ts, toKey, UsdcAddress, ZeroAddress, ZeroAddress);
  }

  lemma FallbackBasisPointList(ts: seq<Value>, toNumber: Value -> Option<real>)
    requires ts == FallbackTokens
    ensures Null !in ts && BasisPointsOf(ts, toNumber) == [Some(4000.0), Some(3500.0), Some(2500.0)]
  {
    FallbackEntriesSent(ts, v => "", toNumber);
    BasisPointsOfThree(ts, toNumber, Some(4000.0), Some(3500.0), Some(2500.0));
  }

  /** Each fallback entry is sent as its symbol's address and its
      percentage times 100. */
  lemma FallbackEntriesSent(ts: seq<Value>, toKey: Value -> string, toNumber: Value -> Option<real>)
    requires ts == FallbackTokens
    ensures |ts| == 3 && Null !in ts
    ensures TokenAddressOf(ts[0], toKey) == UsdcAddress && TokenBasisPoints(ts[0], toNumber) == Some(4000.0)
    ensures TokenAddressOf(ts[1], toKey) == ZeroAddress && TokenBasisPoints(ts[1], toNumber) == Some(3500.0)
    ensures TokenAddressOf(ts[2], toKey) == ZeroAddress && TokenBasisPoints(ts[2], toNumber) == Some(2500.0)
  {
    FallbackAllocations(ts);
    EntrySymbol(ts[0], toKey);
    EntrySymbol(ts[1], toKey);
    EntrySymbol(ts[2], toKey);
    EntryBasisPoints(ts[0], toNumber);
    EntryBasisPoints(ts[1], toNumber);
    EntryBasisPoints(ts[2], toNumber);
    FallbackSymbolAddresses();
    NoNullOfThree(ts);
  }

  lemma SeqOfThree<T>(s: seq<T>, x: T, y: T, z: T)
    requires |s| == 3 && s[0] == x && s[1] == y && s[2] == z
    ensures s == [x, y, z]
  {
  }

  lemma NoNullOfThree(ts: seq<Value>)
    requires |ts| == 3 && ts[0] != Null && ts[1] != Null && ts[2] != Null
    ensures Null !in ts
  {
    assert ts == [ts[0], ts[1], ts[2]];
  }

  /** Of the fallback's symbols only USDC is in the table. */
  lemma FallbackSymbolAddresses()
    ensures GetTokenAddress("USDC") == UsdcAddress
    ensures GetTokenAddress("ETH") == ZeroAddress && GetTokenAddress("BTC") == ZeroAddress
  {
  }

  /** A token entry built from a symbol and a percentage is sent as the
      symbol's address and the percentage times 100. */
  lemma TokenEntrySent(symbol: string, percentage: real, reason: string,
                       toKey: Value -> string, toNumber: Value -> Option<real>)
    ensures var token := TokenEntry(symbol, percentage, reason);
      && token != Null
      && TokenAddressOf(token, toKey) == GetTokenAddress(symbol)
      && TokenBasisPoints(token, toNumber) == Some(TimesHundred(percentage))
  {
    TokenEntryAllocation(symbol, percentage, reason);
    EntrySymbol(TokenEntry(symbol, percentage, reason), toKey);
    EntryBasisPoints(TokenEntry(symbol, percentage, reason), toNumber);
  }

  /** An entry with a string symbol `s` is sent with the address of `s`. */
  lemma EntrySymbol(token: Value, toKey: Value -> string)
    requires Allocation(token).Some?
    ensures token != Null && TokenAddressOf(token, toKey) == GetTokenAddress(Allocation(token).value.0)
  {
    assert Get(token.fields, "symbol") == Some(Str(Allocation(token).value.0));
  }
}
