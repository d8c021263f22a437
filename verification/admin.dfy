/** The owner's "Initialize Default Tokens" action: the three Sepolia
    tokens are registered with the contract one after another, and a token
    the contract already supports is skipped. */
module Admin {
  import opened Strategy

  /** One entry of the Sepolia token list. */
  datatype TokenInfo = TokenInfo(address: string, symbol: string, name: string)

  const SepoliaTokens: seq<TokenInfo> := [
    TokenInfo(UsdcAddress, "USDC", "USD Coin (Sepolia)"),
    TokenInfo(UsdtAddress, "USDT", "Tether USD (Sepolia)"),
    TokenInfo(DaiAddress, "DAI", "Dai Stablecoin (Sepolia)")
  ]

  /** How a run ends: the tokens it added, in order, and whether it got
      through the whole list (an exception ends it early). */
  datatype InitRun = InitRun(added: seq<TokenInfo>, completed: bool)

  /** The addresses of a list of tokens. */
  function AddressSet(tokens: seq<TokenInfo>): (addresses: set<string>)
    ensures forall t :: t in tokens ==> t.address in addresses
    ensures forall a :: a in addresses ==> exists t :: t in tokens && t.address == a
  {
    if |tokens| == 0 then {} else AddressSet(tokens[..|tokens| - 1]) + {tokens[|tokens| - 1].address}
  }

  /** Every token of `tokens` was confirmed. */
  predicate AllConfirmed(tokens: seq<TokenInfo>, addOk: TokenInfo -> bool)
  {
    forall t :: t in tokens ==> addOk(t)
  }

  /** Some token of the list is not supported and its addition fails. */
  predicate SomeAdditionFails(tokens: seq<TokenInfo>, supported: set<string>, addOk: TokenInfo -> bool)
  {
    exists t :: t in tokens && t.address !in supported && !addOk(t)
  }

  /** The loop, as a definition: `supported` is what `supportedTokens`
      reports; `addOk(t)` says whether `addSupportedToken` for `t` and its
      confirmation succeeded. A registered token is supported from then on.
      Every token added was confirmed, and a run stops early only at a token
      that was not supported and whose addition failed. */
  function Initialize(tokens: seq<TokenInfo>, supported: set<string>, addOk: TokenInfo -> bool): (run: InitRun)
    ensures AllConfirmed(run.added, addOk)
    ensures !run.completed ==> SomeAdditionFails(tokens, supported, addOk)
    ensures |run.added| <= |tokens|
  {
    if |tokens| == 0 then InitRun([], true)
    else if tokens[0].address in supported then Initialize(tokens[1..], supported, addOk)
    else if !addOk(tokens[0]) then InitRun([], false)
    else
      var rest := Initialize(tokens[1..], supported + {tokens[0].address}, addOk);
      InitRun([tokens[0]] + rest.added, rest.completed)
  }

  /** `initializeDefaultTokens` over `tokens`: the tokens added, whether
      the loop completed, and the supported addresses afterwards. Only
      unsupported tokens are added, and a completed run leaves every token
      of the list supported. */
  method InitializeDefaultTokens(tokens: seq<TokenInfo>, supported: set<string>, addOk: TokenInfo -> bool)
    returns (added: seq<TokenInfo>, completed: bool, supportedAfter: set<string>)
    ensures InitRun(added, completed) == Initialize(tokens, supported, addOk)
    ensures supportedAfter == supported + AddressSet(added)
    ensures forall t :: t in added ==> t in tokens && t.address !in supported
    ensures completed ==> forall t :: t in tokens ==> t.address in supportedAfter
  {
    added := [];
    completed := true;
    supportedAfter := supported;
    var i := 0;
    while i < |tokens|
      invariant 0 <= i <= |tokens|
      invariant supportedAfter == supported + AddressSet(added)
      invariant Initialize(tokens, supported, addOk) == Resume(added, Initialize(tokens[i..], supportedAfter, addOk))
    {
      var token := tokens[i];
      if token.address in supportedAfter {
        SkipStep(tokens, i, supportedAfter, addOk, added);
        i := i + 1;
        continue;
      }
      if !addOk(token) {
        FailStep(tokens, i, supportedAfter, addOk, added);
        completed := false;
        break;
      }
      AddStep(tokens, i, supportedAfter, addOk, added);
      added := added + [token];
      supportedAfter := supportedAfter + {token.address};
      i := i + 1;
    }
    if completed {
      EndStep(tokens, i, supportedAfter, addOk, added);
    }
    InitializeSkipsSupported(tokens, supported, addOk);
    InitializeCovers(tokens, supported, addOk);
  }

  /** The run of the whole list, once `added` has been added and the rest
      of the list gives `run`. */
  function Resume(added: seq<TokenInfo>, run: InitRun): (whole: InitRun)
    ensures whole.completed == run.completed && |whole.added| == |added| + |run.added|
  {
    InitRun(added + run.added, run.completed)
  }

  /** A supported token is skipped. */
  lemma SkipStep(tokens: seq<TokenInfo>, i: nat, supported: set<string>, addOk: TokenInfo -> bool,
                 added: seq<TokenInfo>)
    requires i < |tokens| && tokens[i].address in supported
    ensures Resume(added, Initialize(tokens[i..], supported, addOk))
         == Resume(added, Initialize(tokens[i + 1..], supported, addOk))
  {
    InitializeStep(tokens, i, supported, addOk);
  }

  /** A failed addition ends the run with what was added so far. */
  lemma FailStep(tokens: seq<TokenInfo>, i: nat, supported: set<string>, addOk: TokenInfo -> bool,
                 added: seq<TokenInfo>)
    requires i < |tokens| && tokens[i].address !in supported && !addOk(tokens[i])
    ensures Resume(added, Initialize(tokens[i..], supported, addOk)) == InitRun(added, false)
  {
    InitializeStep(tokens, i, supported, addOk);
    assert added + [] == added;
  }

  /** A confirmed addition appends the token, which is supported from then
      on. */
  lemma AddStep(tokens: seq<TokenInfo>, i: nat, supported: set<string>, addOk: TokenInfo -> bool,
                added: seq<TokenInfo>)
    requires i < |tokens| && tokens[i].address !in supported && addOk(tokens[i])
    ensures Resume(added, Initialize(tokens[i..], supported, addOk))
         == Resume(added + [tokens[i]], Initialize(tokens[i + 1..], supported + {tokens[i].address}, addOk))
    ensures AddressSet(added + [tokens[i]]) == AddressSet(added) + {tokens[i].address}
  {
    InitializeStep(tokens, i, supported, addOk);
    AddressSetSnoc(added, tokens[i]);
    AppendAssoc(added, tokens[i], Initialize(tokens[i + 1..], supported + {tokens[i].address}, addOk).added);
  }

  /** At the end of the list nothing remains to add. */
  lemma EndStep(tokens: seq<TokenInfo>, i: nat, supported: set<string>, addOk: TokenInfo -> bool,
                added: seq<TokenInfo>)
    requires i == |tokens|
    ensures Resume(added, Initialize(tokens[i..], supported, addOk)) == InitRun(added, true)
  {
    assert tokens[i..] == [] && added + [] == added;
  }

  /** One iteration of the loop, stated on the definition. */
  lemma InitializeStep(tokens: seq<TokenInfo>, i: nat, supported: set<string>, addOk: TokenInfo -> bool)
    requires i < |tokens|
    ensures var token, run := tokens[i], Initialize(tokens[i..], supported, addOk);
      && (token.address in supported ==> run == Initialize(tokens[i + 1..], supported, addOk))
      && (token.address !in supported && !addOk(token) ==> run == InitRun([], false))
      && (token.address !in supported && addOk(token) ==>
            var rest := Initialize(tokens[i + 1..], supported + {token.address}, addOk);
            run == InitRun([token] + rest.added, rest.completed))
  {
    assert tokens[i..][1..] == tokens[i + 1..];
  }

  lemma AppendAssoc<T>(a: seq<T>, x: T, b: seq<T>)
    ensures a + ([x] + b) == (a + [x]) + b
  {
  }

  /** After a completed run every token of the list is supported. */
  lemma {:induction false} InitializeCovers(tokens: seq<TokenInfo>, supported: set<string>, addOk: TokenInfo -> bool)
    ensures var run := Initialize(tokens, supported, addOk);
      run.completed ==> forall t :: t in tokens ==> t.address in supported + AddressSet(run.added)
  {
    if |tokens| > 0 {
      var head := tokens[0];
      assert forall t :: t in tokens ==> t == head || t in tokens[1..];
      if head.address in supported {
        InitializeCovers(tokens[1..], supported, addOk);
      } else if addOk(head) {
        var rest := Initialize(tokens[1..], supported + {head.address}, addOk);
        InitializeCovers(tokens[1..], supported + {head.address}, addOk);
        AddressSetCons(head, rest.added);
      }
    }
  }

  lemma AddressSetSnoc(tokens: seq<TokenInfo>, t: TokenInfo)
    ensures AddressSet(tokens + [t]) == AddressSet(tokens) + {t.address}
  {
    assert (tokens + [t])[..|tokens|] == tokens;
  }

  lemma AddressSetCons(t: TokenInfo, tokens: seq<TokenInfo>)
    ensures AddressSet([t] + tokens) == {t.address} + AddressSet(tokens)
  {
    var all := [t] + tokens;
    forall a | a in AddressSet(all) ensures a in {t.address} + AddressSet(tokens) {
      var u :| u in all && u.address == a;
      assert u == t || u in tokens;
    }
  }

  /** A token the contract already supports is never added again, and
      every added token comes from the list. */
  lemma {:induction false} InitializeSkipsSupported(tokens: seq<TokenInfo>, supported: set<string>, addOk: TokenInfo -> bool)
    ensures var run := Initialize(tokens, supported, addOk);
      forall t :: t in run.added ==> t in tokens && t.address !in supported
  {
    if |tokens| > 0 {
      var head := tokens[0];
      if head.address in supported {
        InitializeSkipsSupported(tokens[1..], supported, addOk);
      } else if addOk(head) {
        InitializeSkipsSupported(tokens[1..], supported + {head.address}, addOk);
      }
    }
  }

  /** A run over tokens that are all supported adds nothing and completes:
      so a second run after a completed one changes nothing. */
  lemma {:induction false} InitializeAllSupported(tokens: seq<TokenInfo>, supported: set<string>, addOk: TokenInfo -> bool)
    requires forall t :: t in tokens ==> t.address in supported
    ensures Initialize(tokens, supported, addOk) == InitRun([], true)
  {
    if |tokens| > 0 {
      assert tokens[0] in tokens;
      assert forall t :: t in tokens[1..] ==> t in tokens;
      InitializeAllSupported(tokens[1..], supported, addOk);
    }
  }

  /** Running the initialisation again after a completed run adds nothing. */
  method InitializeTwice(tokens: seq<TokenInfo>, supported: set<string>, addOk: TokenInfo -> bool)
    returns (second: InitRun)
    requires Initialize(tokens, supported, addOk).completed
    ensures second == InitRun([], true)
  {
    var added, completed, after := InitializeDefaultTokens(tokens, supported, addOk);
    InitializeAllSupported(tokens, after, addOk);
    var added2, completed2, after2 := InitializeDefaultTokens(tokens, after, addOk);
    second := InitRun(added2, completed2);
  }

  /** The registered tokens are exactly the ones `getTokenAddress`
      resolves, at the same addresses: each registered token resolves to
      its own address, and every symbol of the lookup table is registered. */
  lemma SepoliaTokensMatchTable()
    ensures forall t :: t in SepoliaTokens ==> GetTokenAddress(t.symbol) == t.address
    ensures forall t :: t in SepoliaTokens ==> t.symbol in TokenSymbols
    ensures forall symbol :: symbol in TokenSymbols ==> exists t :: t in SepoliaTokens && t.symbol == symbol
  {
    assert SepoliaTokens[0] in SepoliaTokens && SepoliaTokens[1] in SepoliaTokens && SepoliaTokens[2] in SepoliaTokens;
  }
}
