/** The strategy workflow of the dashboard controller: the guards of
    `generateStrategy`, `displayStrategy` remembering the strategy it
    rendered, `modifyStrategy` discarding it, and `executeStrategy`
    turning it into the `createStrategy` call. */
module Session {
  import opened Wrappers
  import opened Records
  import opened Text
  import opened Json
  import opened Strategy

  /** What the `strategyDetails` element shows. */
  datatype Details = Blank | Rendered(strategy: Value) | GenerationFailed

  /** The part of the controller and the page the workflow reads and
      writes: the connected account, the text of the intent field, whether
      the strategy section is visible, what it shows, the strategy the
      execute button would submit (`None` for `null` or `undefined`), and
      whether `this.contract` is set. Connecting stores the account before
      the contract, so an account can be present without a contract: when
      the wallet is on another network, or when asking for the signer
      throws. */
  datatype State = State(
    userAddress: Option<string>,
    contract: bool,
    intent: string,
    strategyShown: bool,
    details: Details,
    currentStrategy: Option<Value>)

  /** `this.userAddress` is truthy: an account was returned and it is not
      the empty string. */
  predicate Connected(s: State)
  {
    s.userAddress.Some? && |s.userAddress.value| > 0
  }

  // ---------------------------------------------------------------------
  // displayStrategy
  // ---------------------------------------------------------------------

  /** Reading and converting `token.symbol` and `token.percentage` for
      every entry of `strategy.tokens` succeeds: `tokens` is an array
      (nothing else a JSON value can be has a `forEach` or a `map`) and
      every entry converts (so none is `null`). */
  predicate Encodable(strategy: Value)
  {
    var tokens := Member(Defined(strategy), "tokens");
    tokens.Defined? && tokens.value.Arr? && AllPrintable(tokens.value.items)
  }

  /** `displayStrategy` renders without throwing: the token entries can be
      read, and every value its template literals convert to text (each
      entry's symbol and percentage, then the strategy's name, reasoning,
      risks and expected outcome) converts without throwing. Only an
      object renders. */
  predicate Renderable(strategy: Value)
    ensures Renderable(strategy) ==> strategy.Obj? && Truthy(strategy)
  {
    && Encodable(strategy)
    && AccessPrintable(Member(Defined(strategy), "name"))
    && AccessPrintable(Member(Defined(strategy), "reasoning"))
    && AccessPrintable(Member(Defined(strategy), "risks"))
    && AccessPrintable(Member(Defined(strategy), "expectedOutcome"))
  }

  /** A strategy object of the prompt's shape whose every token entry
      carries a string symbol and a numeric percentage renders. */
  lemma StrategyObjectRenders(name: string, tokens: seq<Value>, reasoning: string, risks: string, outcome: string)
    requires forall i :: 0 <= i < |tokens| ==> Allocation(tokens[i]).Some?
    ensures Renderable(StrategyObject(name, tokens, reasoning, risks, outcome))
  {
    StrategyObjectFields(name, tokens, reasoning, risks, outcome);
    forall i | 0 <= i < |tokens| ensures tokens[i] != Null && TokenPrintable(tokens[i]) {
      AllocationPrintable(tokens[i]);
    }
  }

  /** The structural check does not make a strategy renderable:
      `{"name": {"toString": 0}, "tokens": []}` has a truthy name and an
      array of tokens, but converting the name to text throws. */
  lemma ValidButUnprintable(strategy: Value)
    requires strategy == Obj([("name", Obj([("toString", Num(0.0))])), ("tokens", Arr([]))])
    ensures IsValidStrategy(strategy) && !Renderable(strategy)
  {
    var name := Obj([("toString", Num(0.0))]);
    LastIndexUnique(strategy.fields, "name", 0);
    LastIndexUnique(strategy.fields, "tokens", 1);
    LastIndexUnique(name.fields, "toString", 0);
    assert Member(Defined(strategy), "name") == Defined(name);
  }

  /** A model reply carrying that strategy is accepted and then ends at
      the failure message, with the section shown and nothing remembered. */
  lemma ValidStrategyMayNotRender(s: State, reply: HttpReply, text: string, candidate: string,
                                  parseJson: string -> Option<Value>, strategy: Value)
    requires strategy == Obj([("name", Obj([("toString", Num(0.0))])), ("tokens", Arr([]))])
    requires !AllWhitespace(s.intent) && Connected(s)
    requires reply.ok && reply.body.Some? && ReplyText(reply.body.value) == Some(text)
    requires ExtractCandidate(text) == Some(candidate) && parseJson(candidate) == Some(strategy)
    ensures GenerateStrategy(s, Some(reply), parseJson) == (s.(strategyShown := true, details := GenerationFailed), RenderFailed)
  {
    ValidButUnprintable(strategy);
    GenerateAccepts(reply, text, candidate, parseJson, strategy);
  }

  /** `displayStrategy`: renders the strategy and then remembers it; when
      rendering throws, the exception leaves the page and the remembered
      strategy as they were. */
  function DisplayStrategy(s: State, strategy: Value): (r: Option<State>)
    ensures r.Some? <==> Renderable(strategy)
    ensures r.Some? ==> r.value.currentStrategy == Some(strategy) && r.value.details == Rendered(strategy)
    ensures r.Some? ==> r.value.userAddress == s.userAddress && r.value.intent == s.intent
                        && r.value.strategyShown == s.strategyShown && r.value.contract == s.contract
  {
    if Renderable(strategy) then Some(s.(details := Rendered(strategy), currentStrategy := Some(strategy)))
    else None
  }

  // ---------------------------------------------------------------------
  // modifyStrategy
  // ---------------------------------------------------------------------

  /** `modifyStrategy`: clears the intent field, hides the section and
      forgets the strategy. The hidden details are left in place. */
  function ModifyStrategy(s: State): (r: State)
    ensures r.intent == "" && !r.strategyShown && r.currentStrategy == None
    ensures r.userAddress == s.userAddress && r.details == s.details && r.contract == s.contract
  {
    s.(intent := "", strategyShown := false, currentStrategy := None)
  }

  // ---------------------------------------------------------------------
  // executeStrategy
  // ---------------------------------------------------------------------

  /** The arguments of `contract.createStrategy`: the strategy's `name`
      as read, the token addresses and the basis points (`None` for
      `NaN`). */
  datatype CreateStrategyCall = CreateStrategyCall(
    name: Access,
    targetTokens: seq<string>,
    targetPercentages: seq<Option<real>>)

  /** How `executeStrategy` ends before the transaction is sent: the
      "No strategy to execute" alert, an exception while building the
      arguments or reading `createStrategy` from an unset contract, or the
      contract call with its arguments. */
  datatype Execution = NoStrategy | Failed | Submitted(call: CreateStrategyCall)

  /** `executeStrategy` up to the contract call. The two arrays are built
      before `this.contract.createStrategy` is read, and the name is read
      after it. */
  function ExecuteStrategy(s: State, toKey: Value -> string, toNumber: Value -> Option<real>): (e: Execution)
    ensures e == NoStrategy <==> s.currentStrategy.None? || !Truthy(s.currentStrategy.value)
    ensures e.Submitted? <==> s.currentStrategy.Some? && Truthy(s.currentStrategy.value)
                              && Encodable(s.currentStrategy.value) && s.contract
    ensures e.Submitted? ==> |e.call.targetTokens| == |e.call.targetPercentages|
                             == |Member(Defined(s.currentStrategy.value), "tokens").value.items|
  {
    if s.currentStrategy.None? || !Truthy(s.currentStrategy.value) then NoStrategy
    else
      var strategy := s.currentStrategy.value;
      var tokens := Member(Defined(strategy), "tokens");
      if !(tokens.Defined? && tokens.value.Arr?) then Failed
      else
        match EncodeTokens(tokens.value.items, toKey, toNumber)
        case None => Failed
        case Some(arrays) =>
          if !s.contract then Failed
          else Submitted(CreateStrategyCall(Member(Defined(strategy), "name"), arrays.0, arrays.1))
  }

  /** Every entry with a string symbol and a numeric percentage is sent
      at its own position as the symbol's address and the percentage
      times 100. */
  lemma ExecuteSendsAllocations(s: State, toKey: Value -> string, toNumber: Value -> Option<real>, i: nat)
    requires ExecuteStrategy(s, toKey, toNumber).Submitted?
    requires i < |Member(Defined(s.currentStrategy.value), "tokens").value.items|
    requires Allocation(Member(Defined(s.currentStrategy.value), "tokens").value.items[i]).Some?
    ensures var call := ExecuteStrategy(s, toKey, toNumber).call;
      var allocation := Allocation(Member(Defined(s.currentStrategy.value), "tokens").value.items[i]).value;
      && call.targetTokens[i] == GetTokenAddress(allocation.0)
      && call.targetPercentages[i] == Some(TimesHundred(allocation.1))
  {
    ExecuteCall(s, toKey, toNumber);
    ListsSendAllocation(Member(Defined(s.currentStrategy.value), "tokens").value.items, toKey, toNumber, i);
  }

  /** The submitted arrays are the two `map`s over the remembered
      strategy's tokens. */
  lemma ExecuteCall(s: State, toKey: Value -> string, toNumber: Value -> Option<real>)
    requires ExecuteStrategy(s, toKey, toNumber).Submitted?
    ensures var items := Member(Defined(s.currentStrategy.value), "tokens").value.items;
      var call := ExecuteStrategy(s, toKey, toNumber).call;
      && Null !in items && AllPrintable(items)
      && call.name == Member(Defined(s.currentStrategy.value), "name")
      && call.targetTokens == AddressesOf(items, toKey)
      && call.targetPercentages == BasisPointsOf(items, toNumber)
  {
  }

  /** Whatever `displayStrategy` accepted, `executeStrategy` submits when
      the contract is set: the rendered strategy's name and one address and
      one basis-point figure per token entry. Without a contract it fails. */
  lemma DisplayThenExecute(s: State, strategy: Value, toKey: Value -> string, toNumber: Value -> Option<real>)
    requires Renderable(strategy)
    ensures var e := ExecuteStrategy(DisplayStrategy(s, strategy).value, toKey, toNumber);
      var items := Member(Defined(strategy), "tokens").value.items;
      && (s.contract <==> e.Submitted?)
      && (!s.contract ==> e == Failed)
      && (e.Submitted? ==> && e.call.name == Member(Defined(strategy), "name")
                           && e.call.targetTokens == AddressesOf(items, toKey)
                           && e.call.targetPercentages == BasisPointsOf(items, toNumber))
  {
  }

  /** After `modifyStrategy` there is nothing to execute, and generating
      again first asks for an intent. */
  lemma ModifyThenExecute(s: State, toKey: Value -> string, toNumber: Value -> Option<real>)
    ensures ExecuteStrategy(ModifyStrategy(s), toKey, toNumber) == NoStrategy
  {
  }

  // ---------------------------------------------------------------------
  // generateStrategy
  // ---------------------------------------------------------------------

  /** How `generateStrategy` ends: one of its two alerts, the strategy
      rendered, or the "Failed to generate strategy" message after
      `displayStrategy` threw. */
  datatype Outcome = MissingIntent | NotConnected | Shown | RenderFailed

  /** The synchronous part of `generateStrategy`, up to the `await` of
      the model: the intent is checked before the connection, and past
      both guards the section is shown. `None` means the handler is now
      waiting, and other handlers may run before it resumes. */
  function GenerateBegin(s: State): (r: (State, Option<Outcome>))
    ensures r.1 == Some(MissingIntent) <==> AllWhitespace(s.intent)
    ensures r.1 == Some(NotConnected) <==> !AllWhitespace(s.intent) && !Connected(s)
    ensures r.1.Some? ==> r.0 == s
    ensures r.1.None? ==> r.0.strategyShown && r.0 == s.(strategyShown := true)
  {
    if Trim(s.intent) == [] then (s, Some(MissingIntent))
    else if !Connected(s) then (s, Some(NotConnected))
    else (s.(strategyShown := true), None)
  }

  /** The part after the `await`, applied to the page as it is when the
      answer arrives: the strategy is displayed, or the failure message
      replaces the details when displaying throws. The section is not
      shown again. */
  function GenerateFinish(t: State, strategy: Value): (r: (State, Outcome))
    ensures r.1 == Shown <==> Renderable(strategy)
    ensures r.1 == Shown || r.1 == RenderFailed
    ensures r.0.strategyShown == t.strategyShown && r.0.intent == t.intent && r.0.contract == t.contract
    ensures r.1 == Shown ==> r.0.currentStrategy == Some(strategy) && r.0.details == Rendered(strategy)
    ensures r.1 == RenderFailed ==> r.0 == t.(details := GenerationFailed)
  {
    match DisplayStrategy(t, strategy)
    case Some(u) => (u, Shown)
    case None => (t.(details := GenerationFailed), RenderFailed)
  }

  /** `generateStrategy` when nothing else runs while it waits: the
      synchronous part, then the model's answer for the reply `reply`. */
  function GenerateStrategy(s: State, reply: Option<HttpReply>, parseJson: string -> Option<Value>)
    : (r: (State, Outcome))
    ensures r.1 == MissingIntent <==> AllWhitespace(s.intent)
    ensures r.1 == NotConnected <==> !AllWhitespace(s.intent) && !Connected(s)
    ensures r.1 in {MissingIntent, NotConnected} ==> r.0 == s
  {
    match GenerateBegin(s)
    case (t, Some(outcome)) => (t, outcome)
    case (t, None) => GenerateFinish(t, GenerateAIStrategy(reply, parseJson))
  }

  /** Nothing stops `modifyStrategy` from running during the wait. The
      answer then arrives on a hidden section with a cleared intent, and
      still becomes the strategy the execute button submits. */
  lemma ModifyDuringGenerate(s: State, strategy: Value, toKey: Value -> string, toNumber: Value -> Option<real>)
    requires GenerateBegin(s).1.None? && Renderable(strategy)
    ensures var t := GenerateFinish(ModifyStrategy(GenerateBegin(s).0), strategy).0;
      && !t.strategyShown && t.intent == ""
      && t.currentStrategy == Some(strategy)
      && (ExecuteStrategy(t, toKey, toNumber).Submitted? <==> s.contract)
  {
  }

  /** Two clicks can wait at the same time, and the answer that arrives
      last is the one remembered, whichever click asked for it. */
  lemma LastAnswerWins(s: State, first: Value, second: Value)
    requires GenerateBegin(s).1.None? && Renderable(first) && Renderable(second)
    ensures var t := GenerateBegin(GenerateBegin(s).0);
      && t.1.None?
      && GenerateFinish(GenerateFinish(t.0, second).0, first).0.currentStrategy == Some(first)
  {
  }

  /** Past the guards the section is visible and the account and intent
      are kept; either the strategy the model produced (or the fallback)
      is shown and remembered, or the failure message is shown and the
      strategy remembered before stays. */
  lemma GenerateShowsStrategy(s: State, reply: Option<HttpReply>, parseJson: string -> Option<Value>)
    requires !AllWhitespace(s.intent) && Connected(s)
    ensures var (t, outcome) := GenerateStrategy(s, reply, parseJson);
      var strategy := GenerateAIStrategy(reply, parseJson);
      && t.strategyShown && t.userAddress == s.userAddress && t.intent == s.intent
      && (outcome == Shown <==> Renderable(strategy))
      && (outcome == Shown ==> t.currentStrategy == Some(strategy) && t.details == Rendered(strategy))
      && (outcome == RenderFailed ==> t.currentStrategy == s.currentStrategy && t.details == GenerationFailed)
  {
  }

  /** A strategy that was shown is submitted, under a truthy name,
      exactly when the contract is set. */
  lemma GenerateThenExecute(s: State, reply: Option<HttpReply>, parseJson: string -> Option<Value>,
                            toKey: Value -> string, toNumber: Value -> Option<real>)
    requires GenerateStrategy(s, reply, parseJson).1 == Shown
    ensures var e := ExecuteStrategy(GenerateStrategy(s, reply, parseJson).0, toKey, toNumber);
      && (e.Submitted? <==> s.contract)
      && (e.Submitted? ==> AccessTruthy(e.call.name))
  {
    var strategy := GenerateAIStrategy(reply, parseJson);
    DisplayThenExecute(s.(strategyShown := true), strategy, toKey, toNumber);
  }

  /** After `modifyStrategy`, `generateStrategy` stops at the intent
      alert and changes nothing. */
  lemma ModifyThenGenerate(s: State, reply: Option<HttpReply>, parseJson: string -> Option<Value>)
    ensures GenerateStrategy(ModifyStrategy(s), reply, parseJson) == (ModifyStrategy(s), MissingIntent)
  {
  }

  /** When the model cannot be reached, a connected user with an intent
      is shown the fallback, and executing it asks the contract for
      "Defensive Market Strategy" with USDC at 4000 basis points and the
      unlisted ETH and BTC at the zero address with 3500 and 2500, provided
      the contract is set; without it, executing fails. */
  lemma UnreachableModelEndToEnd(s: State, parseJson: string -> Option<Value>,
                                 toKey: Value -> string, toNumber: Value -> Option<real>)
    requires !AllWhitespace(s.intent) && Connected(s)
    ensures var (t, outcome) := GenerateStrategy(s, None, parseJson);
      && outcome == Shown
      && (!s.contract ==> ExecuteStrategy(t, toKey, toNumber) == Failed)
      && (s.contract ==>
            ExecuteStrategy(t, toKey, toNumber)
            == Submitted(CreateStrategyCall(Defined(Str(FallbackName)),
                                            [UsdcAddress, ZeroAddress, ZeroAddress],
                                            [Some(4000.0), Some(3500.0), Some(2500.0)])))
  {
    GenerateFallsBack(None, parseJson);
    FallbackRenders(FallbackTokens, toKey, toNumber);
    DisplayThenExecute(s.(strategyShown := true), FallbackStrategy, toKey, toNumber);
  }

  /** The fallback renders, and its entries are sent as the three
      addresses and basis points. */
  lemma FallbackRenders(ts: seq<Value>, toKey: Value -> string, toNumber: Value -> Option<real>)
    requires ts == FallbackTokens
    ensures Renderable(FallbackStrategy)
    ensures Member(Defined(FallbackStrategy), "tokens") == Defined(Arr(ts))
    ensures Member(Defined(FallbackStrategy), "name") == Defined(Str(FallbackName))
    ensures Null !in ts && AddressesOf(ts, toKey) == [UsdcAddress, ZeroAddress, ZeroAddress]
    ensures BasisPointsOf(ts, toNumber) == [Some(4000.0), Some(3500.0), Some(2500.0)]
  {
    FallbackShape();
    FallbackRenderable(ts);
    FallbackAddressList(ts, toKey);
    FallbackBasisPointList(ts, toNumber);
  }

  lemma FallbackRenderable(ts: seq<Value>)
    requires ts == FallbackTokens
    ensures Renderable(FallbackStrategy)
  {
    FallbackShape();
    FallbackAllocations(ts);
    AllOfThree(ts, t => Allocation(t).Some?);
    RenderableFromReads(FallbackStrategy, ts);
  }

  /** A strategy renders when its tokens are allocation entries and its
      four text members are strings. */
  lemma RenderableFromReads(strategy: Value, ts: seq<Value>)
    requires Member(Defined(strategy), "tokens") == Defined(Arr(ts))
    requires forall i :: 0 <= i < |ts| ==> Allocation(ts[i]).Some?
    requires Member(Defined(strategy), "name").Defined? && Member(Defined(strategy), "name").value.Str?
    requires Member(Defined(strategy), "reasoning").Defined? && Member(Defined(strategy), "reasoning").value.Str?
    requires Member(Defined(strategy), "risks").Defined? && Member(Defined(strategy), "risks").value.Str?
    requires Member(Defined(strategy), "expectedOutcome").Defined?
             && Member(Defined(strategy), "expectedOutcome").value.Str?
    ensures Renderable(strategy)
  {
    forall i | 0 <= i < |ts| ensures ts[i] != Null && TokenPrintable(ts[i]) {
      AllocationPrintable(ts[i]);
    }
  }
}
