# Crypto portfolio rebalancer: front-end logic in Dafny

This project models the browser-side logic of an AI-assisted crypto portfolio
rebalancer, as a set of pure Dafny functions, and proves properties about them.

It covers two front ends:

- The server-driven page (`static/script.js`). The user types holdings such as
  `"1.5 eth, 100 usdc"` and an intent. The page parses the holdings, values them
  at a fixed price table, and turns the plan the server sends back into a
  "before" and an "after" chart and a coloured plan table.
- The wallet dashboard (`frontend/app.js`, with the shorter copy in `app.js`).
  Here a language model proposes a strategy, meaning a name and a list of
  `{symbol, percentage}` entries. The controller:
  - extracts the JSON from the model's answer;
  - checks its shape and falls back to a fixed "Defensive Market Strategy" when
    anything goes wrong;
  - shows and remembers the strategy, and submits it to the on-chain
    `createStrategy` call as token addresses plus percentages times 100
    (basis points);
  - abbreviates the connected address and shows the admin panel to the
    contract owner;
  - lets the owner register the three Sepolia stablecoins, skipping those
    already supported.

Modules:

- `Wrappers`: `Option`.
- `Text`: `trim`, `split`, `toUpperCase`/`toLowerCase` on ASCII, and `slice`.
- `Records`: JavaScript objects as ordered `(key, value)` sequences. It has
  property assignment, `Object.fromEntries`, lookup, a map view and sums.
- `Json`: parsed values, truthiness and property reads that may throw.
- `Portfolio`: `static/script.js`.
- `Strategy`: `generateAIStrategy`, `getTokenAddress` and the argument
  encoding of `executeStrategy`.
- `Session`: the controller state across `generateStrategy`,
  `displayStrategy`, `modifyStrategy` and `executeStrategy`.
- `Wallet`: `updateWalletInfo` and `checkIfOwner`.
- `Admin`: `initializeDefaultTokens`.

Some inputs are parameters of the model:

- `parseFloat` and `JSON.parse`;
- the `String`/`Number` coercions applied to a token's `symbol` and `percentage`;
- the model endpoint's reply;
- the contract's `supportedTokens` answers;
- whether an `addSupportedToken` transaction succeeds.

Amounts, prices and percentages are exact reals.

## Model

| member | source | states |
|---|---|---|
| Text.Trim | static/script.js:44-45 | `trim` gives the text with a leading and a trailing run of whitespace cut off, and what is left neither starts nor ends with whitespace; the result is empty exactly when the text is all whitespace |
| Text.TrimIdempotent | static/script.js:44-45 | trimming a trimmed text changes nothing |
| Text.Split | static/script.js:95 | `split` gives one piece more than there are separators, and no piece contains the separator |
| Text.JoinSplit | static/script.js:95 | joining the pieces of a split with the separator gives back the original text |
| Text.SplitJoin | static/script.js:95 | splitting a join of separator-free pieces gives back the pieces |
| Text.ToUpper | static/script.js:96 | upper-casing keeps the length, leaves no ASCII lower-case letter, changes no other character, and keeps what each character lower-cases to |
| Text.SliceFront | frontend/app.js:222 | `slice(0, n)` is the first `n` characters, or the whole text when it is shorter |
| Text.SliceBack | frontend/app.js:222 | `slice(-n)` is the last `n` characters, or the whole text when it is shorter; `slice(-0)` is the whole text |
| Records.Put | static/script.js:84 | assignment replaces the value of an existing key in place, or appends a new key at the end; no other key changes |
| Records.FromEntries | static/script.js:96 | `Object.fromEntries` gives an object without repeated keys, holding each key's last value |
| Records.ToMapIffGet | static/script.js:99-105 | two objects have the same map view exactly when every lookup agrees |
| Records.SumValuesIsMapSum | static/script.js:79 | the in-order sum of an object's values equals the order-free sum of its map view |
| Json.Member | frontend/app.js:312 | reading a property of `undefined` or `null` throws; otherwise the value read is the object's own member of that name |
| Json.Element0 | frontend/app.js:301 | `[0]` on an array is its first element, `undefined` when it is empty, and throws on `undefined` or `null` |
| Json.MemberOfObject | frontend/app.js:312 | a property read returns a value exactly when the object holds that value under that name |
| Json.MemberPrintable | frontend/app.js:340-365 | a member read from an object whose members all convert to text also converts; an object with its own `toString` member does not |
| Portfolio.EntryPair | static/script.js:95-96 | an entry contributes a `[symbol, amount]` pair exactly when it splits into two pieces |
| Portfolio.ParsePortfolio | static/script.js:94-97 | the parsed holdings repeat no key, and every key is in upper case |
| Portfolio.KeptIffOneSpace | static/script.js:95-96 | an entry is kept exactly when its trimmed text contains exactly one space |
| Portfolio.DoubleSpaceDropped | static/script.js:95-96 | an entry whose words are separated by two spaces is dropped |
| Portfolio.KeptPartsNonEmpty | static/script.js:95-96 | a kept entry has a non-empty amount and a non-empty symbol |
| Portfolio.KeptPairsKeySource | static/script.js:96 | every key of the parsed pairs comes from a kept entry |
| Portfolio.KeptPairsKeyPresent | static/script.js:96 | every kept entry's upper-cased symbol is a key of the result |
| Portfolio.KeptPairsLastWins | static/script.js:96 | for a symbol named more than once, the last kept entry's amount wins |
| Portfolio.ParseNothingKept | static/script.js:94-97 | text with no well-formed entry gives the empty object |
| Portfolio.ParseKeySource | static/script.js:94-97 | every key of the parsed holdings is the upper-cased symbol of a well-formed entry of the text |
| Portfolio.ParseKeyPresent | static/script.js:94-97 | the upper-cased symbol of every well-formed entry of the text is a key of the parsed holdings |
| Portfolio.ParseLastWins | static/script.js:94-97 | a symbol's parsed amount is the amount of its last well-formed entry in the text |
| Portfolio.ParseRepeatedFirst | static/script.js:94-97 | a repeated symbol keeps its first position and takes its last amount |
| Portfolio.ParseExample | static/script.js:94-97 | `"1.5 eth, 100 usdc, 0.5 eth"` gives ETH 0.5 followed by USDC 100 |
| Portfolio.TotalValue | static/script.js:79 | the total is never negative when no amount and no price is negative |
| Portfolio.Worth | static/script.js:79 | a holding's worth is not negative for non-negative factors, and is zero when either factor is zero |
| Portfolio.FormatPortfolio | static/script.js:99-105 | the chart has the same keys as the holdings, in the same order, and repeats none |
| Portfolio.FormatGet | static/script.js:99-105 | each asset's chart value is its amount times its price, and 0 when it has no price |
| Portfolio.FormatSumsToTotal | static/script.js:79-80 | the "before" chart adds up to the total that scales the plan |
| Portfolio.TotalIsOrderFree | static/script.js:79 | listing the same holdings in a different order gives the same total |
| Portfolio.UnpricedIgnored | static/script.js:79 | a holding of an asset missing from the price table adds nothing to the total |
| Portfolio.ExampleTotal | static/script.js:16-21 | the worked example is worth 1850 at the fixed prices |
| Portfolio.PriceOf | static/script.js:102 | an asset missing from the price table is priced at 0 and a listed one at its table price, so non-negative tables give non-negative prices |
| Portfolio.Assets | static/script.js:83 | the assets the plan names, in plan order |
| Portfolio.AfterPortfolio | static/script.js:81-85 | the "after" chart has a key for exactly the assets the plan names, and repeats none |
| Portfolio.AfterLastWins | static/script.js:83-84 | an asset named twice takes the share of its last step |
| Portfolio.AfterSnocNew | static/script.js:83-84 | a step naming a new asset appends it at the end of the chart |
| Portfolio.AfterSum | static/script.js:83-84 | with no asset named twice, the "after" chart adds up to the total times the sum of the percentages over 100 |
| Portfolio.AfterKeepsTotal | static/script.js:79-85 | a plan whose percentages add up to 100 redistributes exactly the current total |
| Portfolio.AssignAsWritten | static/script.js:84 | on a plain object, assigning to `"__proto__"` adds no key; any other name is an ordinary assignment |
| Portfolio.AfterPortfolioAsWritten | static/script.js:81-85 | the chart as the code builds it never has a `"__proto__"` key |
| Portfolio.AsWrittenAgrees | static/script.js:81-85 | the code builds the intended chart whenever no asset is named `"__proto__"` |
| Portfolio.ProtoAssetVanishes | static/script.js:81-85 | a plan putting 100% into `"__proto__"` gives an empty chart instead of the whole total |
| Portfolio.ActionColour | static/script.js:87 | `BUY` is green, `SELL` is red, and anything else, other letter cases included, is yellow |
| Portfolio.ActionColourIsCaseSensitive | static/script.js:87 | `buy`, `Sell` and other letter cases of the two actions are yellow, while their upper-case forms are green and red |
| Portfolio.PlanRows | static/script.js:83-89 | one row per plan step, in order, with that step's colour, action, asset and percentage |
| Portfolio.DisplayResults | static/script.js:68-92 | the "before" chart has the parsed holdings' keys and sums to their total; the "after" chart splits that total by the plan |
| Portfolio.ChartsBalance | static/script.js:68-92 | the two charts show the same total when the plan names each asset once and its percentages add up to 100 |
| Portfolio.RebalanceClick | static/script.js:43-46 | a request goes out exactly when neither field is blank, with both fields trimmed and the fixed prices |
| Portfolio.RebalanceResubmit | static/script.js:43-46 | submitting the fields of a request again sends the same request |
| Strategy.FirstIndexOf | frontend/app.js:304 | the position of the first occurrence of a character, with none before it; none exactly when it is absent |
| Strategy.LastIndexOf | frontend/app.js:304 | the position of the last occurrence of a character, with none after it; none exactly when it is absent |
| Strategy.ExtractCandidate | frontend/app.js:304-307 | a candidate exists exactly when some `{` comes before some `}`; it starts with `{` and ends with `}` |
| Strategy.ExtractIsRegexMatch | frontend/app.js:304-307 | the candidate is the leftmost-greedy match of `/\{[\s\S]*\}/`, and there is none exactly when the expression matches nowhere |
| Strategy.RegexMatchIsExtract | frontend/app.js:304-309 | whenever the expression has a leftmost-greedy match, the extraction returns it |
| Strategy.IsValidStrategy | frontend/app.js:312-314 | only an object, and so only a truthy value, passes the structural check |
| Strategy.ValidStrategyShape | frontend/app.js:312-314 | the check accepts exactly objects with a truthy `name` and an array `tokens` |
| Strategy.TokenEntryAllocation | frontend/app.js:325-327 | a fallback entry carries its symbol and its percentage |
| Strategy.StrategyObjectFields | frontend/app.js:322-332 | an object of the prompt's shape reads back its name, its tokens and its three texts under their keys, and passes the check when its name is not empty |
| Strategy.FallbackShape | frontend/app.js:318-332 | the fallback passes the check, is named "Defensive Market Strategy", and allocates USDC 40, ETH 35, BTC 25, 100 in all |
| Strategy.FallbackAllocations | app.js:165-175 | the fallback's three entries and their total of 100, in the older controller too |
| Strategy.ReplyText | frontend/app.js:301-304 | text is only found in an object reply |
| Strategy.ReplyTextReads | frontend/app.js:301-304 | a reply shaped `{"candidates": [{"content": {"parts": [{"text": t}]}}]}`, other members and elements allowed, yields `t` when it is a string and nothing otherwise |
| Strategy.ReplyTextSource | frontend/app.js:301-304 | a text found is the string `text` of the first part of the `content` of the first candidate of the reply |
| Strategy.StrategyFromReply | frontend/app.js:295-316 | a strategy obtained from the reply always passes the structural check |
| Strategy.GenerateAIStrategy | frontend/app.js:257-334 | never fails; always returns a strategy that passes the check, and anything other than the fallback came from the reply |
| Strategy.GenerateAccepts | frontend/app.js:295-316 | an OK reply whose text holds a parsable, valid candidate is returned exactly as parsed |
| Strategy.GenerateFallsBack | frontend/app.js:318-332 | each failure gives the fallback: no response, a non-JSON body, a non-OK status, no text, no braces, unparsable JSON, or a failed check |
| Strategy.TableAddress | frontend/app.js:410-414 | the table holds an address exactly for USDC, USDT and DAI |
| Strategy.TableAddressesNonZero | frontend/app.js:410-415 | no table address is the zero address, so `||` never replaces one |
| Strategy.GetTokenAddress | frontend/app.js:408-416 | USDC, USDT and DAI map to their Sepolia addresses, and the zero address comes back exactly for every other symbol |
| Strategy.TokenAddressAsWritten | frontend/app.js:408-416 | the lookup as written agrees with the table for listed symbols, and gives the zero address for unlisted names outside `Object.prototype` |
| Strategy.AsWrittenLookupAgrees | app.js:251-259 | the lookup as written gives the intended address exactly when the symbol is not an `Object.prototype` member |
| Strategy.ConstructorSymbolLeaks | frontend/app.js:408-416 | the symbol `"constructor"` gets an inherited function instead of the zero address |
| Strategy.SymbolKey | frontend/app.js:379-381 | a missing symbol is looked up as `"undefined"`, and a string symbol as itself |
| Strategy.BasisPoints | frontend/app.js:382-384 | a numeric percentage is sent times 100; a missing one becomes `NaN` |
| Strategy.AddressesOf | frontend/app.js:379-381 | one address per token entry, each that entry's address |
| Strategy.BasisPointsOf | frontend/app.js:382-384 | one figure per token entry, each that entry's percentage times 100 |
| Strategy.EncodeTokens | frontend/app.js:379-384 | the arguments are built exactly when every entry's symbol and percentage can be read and converted (so no entry is `null`), and both arrays have one element per entry |
| Strategy.UnconvertibleSymbolFails | frontend/app.js:379-381 | an entry whose symbol is an object with its own `toString` stops the arguments from being built, though it is not `null` |
| Strategy.EntryBasisPoints | frontend/app.js:382-384 | an entry with a numeric percentage is sent as that percentage times 100 |
| Strategy.EntrySymbol | frontend/app.js:379-381 | an entry with a string symbol is sent as that symbol's address |
| Strategy.ListsSendAllocation | frontend/app.js:379-384 | at every position, the arrays hold the entry's symbol address and its percentage times 100 |
| Strategy.BasisPointsScale | frontend/app.js:382-384 | the basis points add up to 100 times the percentages' total |
| Strategy.TokenEntrySent | frontend/app.js:379-384 | an entry built from a symbol and a percentage is sent as the symbol's address and the percentage times 100 |
| Strategy.FallbackEncoding | frontend/app.js:322-332 | the fallback is sent as USDC's address and the zero address twice, at 4000, 3500 and 2500, for 10000 basis points in all |
| Strategy.FallbackSymbolAddresses | frontend/app.js:408-416 | of the fallback's symbols only USDC has an address; ETH and BTC get the zero address |
| Session.DisplayStrategy | frontend/app.js:336-370 | rendering succeeds exactly when the strategy renders (see `Session.Renderable`); then the strategy is shown and remembered and nothing else changes |
| Session.Renderable | frontend/app.js:338-365 | rendering needs `tokens` to be an array without `null`, and every entry's symbol and percentage and the strategy's name, reasoning, risks and expected outcome to convert to text; only an object renders |
| Strategy.AllocationPrintable | frontend/app.js:339-346 | an entry with a string symbol and a numeric percentage can be rendered and converted |
| Session.StrategyObjectRenders | frontend/app.js:336-370 | a strategy of the prompt's shape whose entries carry string symbols and numeric percentages renders |
| Session.RenderableFromReads | frontend/app.js:336-370 | a strategy whose text members are strings and whose entries carry string symbols and numeric percentages renders |
| Session.ValidButUnprintable | frontend/app.js:312-350 | `{"name": {"toString": 0}, "tokens": []}` passes the structural check but does not render |
| Session.ValidStrategyMayNotRender | frontend/app.js:243-254 | a model reply carrying that strategy is accepted by `generateAIStrategy` and ends at the failure message, with nothing remembered |
| Session.ModifyStrategy | frontend/app.js:402-406 | the intent is cleared, the section hidden and the strategy forgotten; the account and the details are kept |
| Session.ExecuteStrategy | frontend/app.js:372-391 | the "no strategy" alert comes exactly when no truthy strategy is remembered; the call is made exactly when `tokens` is also an array whose every entry converts and the contract is set, with one address and one figure per entry |
| Session.ExecuteCall | frontend/app.js:379-390 | the submitted call carries the strategy's name and the two maps over its tokens |
| Session.ExecuteSendsAllocations | frontend/app.js:379-390 | every entry with a string symbol and a number is sent at its position as the symbol's address and the percentage times 100 |
| Session.DisplayThenExecute | frontend/app.js:369-390 | whatever was displayed is submitted exactly when the contract is set, under its name, with one address and one figure per entry; without a contract executing fails |
| Session.ModifyThenExecute | frontend/app.js:402-406 | after `modifyStrategy` there is nothing to execute |
| Session.GenerateStrategy | frontend/app.js:230-255 | a blank intent alerts; a non-blank intent without a connected account alerts; both leave the state as it was |
| Session.GenerateBegin | frontend/app.js:230-245 | the two alerts come exactly on a blank intent and, after it, on a missing account, changing nothing; otherwise the section is shown and the handler waits |
| Session.GenerateFinish | frontend/app.js:247-254 | on the page as it is when the answer arrives, the strategy is shown and remembered exactly when it renders, and the failure message replaces the details otherwise; the section, intent and contract are not touched |
| Session.ModifyDuringGenerate | frontend/app.js:245-406 | `modifyStrategy` during the wait leaves the section hidden and the intent cleared, yet the answer becomes the remembered strategy and is submitted when the contract is set |
| Session.LastAnswerWins | frontend/app.js:245-254 | with two clicks waiting, the answer that arrives last is remembered, whichever click asked for it |
| Session.GenerateShowsStrategy | frontend/app.js:243-254 | when nothing runs during the wait: past the guards the section is shown; either the strategy is shown and remembered, or the failure message is shown and the old strategy stays |
| Session.GenerateThenExecute | frontend/app.js:249-390 | a strategy that was shown is submitted exactly when the contract is set, under a truthy name |
| Session.ModifyThenGenerate | app.js:73-98 | after `modifyStrategy`, generating again stops at the intent alert and changes nothing |
| Session.UnreachableModelEndToEnd | frontend/app.js:230-390 | when the model cannot be reached, the fallback is shown; with the contract set it is submitted as USDC's address plus the zero address twice, at 4000, 3500 and 2500, and without it executing fails |
| Session.FallbackRenders | frontend/app.js:322-370 | the fallback renders, and its entries encode to the three addresses and basis points |
| Session.FallbackRenderable | frontend/app.js:318-365 | the fallback strategy renders |
| Wallet.Abbreviate | frontend/app.js:222 | the display is up to six leading characters, `...`, and up to four trailing characters |
| Wallet.AbbreviateParts | app.js:65 | a long address is shown as its first six characters, `...` and its last four |
| Wallet.AbbreviateCollides | frontend/app.js:222 | two long addresses look alike exactly when they share their first six and last four characters |
| Wallet.SameAccountPointwise | frontend/app.js:54 | the owner comparison matches character by character, ignoring ASCII case |
| Wallet.SameAccountIgnoresCase | frontend/app.js:54 | the comparison is reflexive and symmetric, and does not see the case of either address |
| Wallet.CheckIfOwner | frontend/app.js:51-62 | the admin panel appears exactly when the owner and the user are both known and are the same account |
| Wallet.OwnerPanelIgnoresCase | frontend/app.js:51-62 | changing the case of either address does not change whether the panel appears |
| Admin.AddressSet | frontend/app.js:106-110 | the set holds exactly the addresses of the listed tokens |
| Admin.Initialize | frontend/app.js:114-132 | every token a run adds was confirmed, a run adds at most one token per list entry, and it stops early only at an unsupported token whose addition failed |
| Admin.InitializeDefaultTokens | frontend/app.js:114-132 | the loop adds only tokens that were not supported, skips supported ones, and leaves every token supported once it completes |
| Admin.InitializeCovers | frontend/app.js:114-132 | after a completed run, every token of the list is supported |
| Admin.InitializeSkipsSupported | frontend/app.js:119-123 | an already supported token is never added, and every added token is from the list |
| Admin.InitializeAllSupported | frontend/app.js:114-132 | when every token is already supported, the run adds nothing and completes |
| Admin.InitializeTwice | frontend/app.js:97-147 | running the initialisation again after a completed run adds nothing |
| Admin.SepoliaTokensMatchTable | frontend/app.js:106-110 | each registered token resolves to its own address through `getTokenAddress`, and every symbol of the lookup table is registered |

## Left out

- Numbers are exact reals. The model does not cover IEEE rounding, `NaN` from `parseFloat`, `toFixed`, `formatEther`, or the `BigInt` conversion `ethers` applies to fractional basis points.
- `parseFloat`, `JSON.parse` and the `String`/`Number` coercions of a token's fields are function parameters. JSON parsing itself is not modelled.
- JavaScript orders integer-like keys such as `"10"` before other keys. The model keeps insertion order for every key.
- `toUpperCase` and `toLowerCase` are modelled on ASCII letters only. Unicode case mapping is out of scope.
- `Portfolio.ParsePortfolio` splits each trimmed entry on a single space, as the code does, so a tab or a double space between the amount and the symbol drops the entry.
- `Portfolio.DisplayResults` takes the price table as a parameter. The page always passes the fixed table, `Portfolio.MockPrices`.
- Chart values are numbers, not the `{ value: ... }` wrapper objects the code builds.
- These are not modelled: HTML rendering, Chart.js, alerts, the spinner, and the server's `/rebalance` handler and its reply.
- The prompt text and the `fetch` call are not modelled. The model's reply is a parameter: `None` when `fetch` rejects, and a body of `None` when it is not JSON.
- The two check boxes are not modelled. They only change the prompt.
- Contract calls are not modelled. `supportedTokens` is a set of addresses. The success of `addSupportedToken` plus `wait` is the parameter `addOk`. What happens to the `createStrategy` transaction after it is sent is not modelled.
- `Admin.InitializeDefaultTokens`: the model gives the `supportedTokens` query no way to throw. A failing query ends the loop the same way a failed addition does, and that case is not distinguished.
- `Session.State`: whether `this.contract` is set is an input of the model, independent of the account. `connectWallet` stores the account first; the contract is created only after the signer is obtained and, in `frontend/app.js`, after the Sepolia network check (frontend/app.js:182-198, app.js:42-48). So an account can be present without a contract, and `executeStrategy` then throws at `this.contract.createStrategy`.
- `Portfolio.DisplayResults`: its "after" chart is built with the corrected `Portfolio.AfterPortfolio`, not with `Portfolio.AfterPortfolioAsWritten`. The two agree unless a plan asset is named `"__proto__"` (`Portfolio.AsWrittenAgrees`).
- `Portfolio.ChartsBalance`: it is stated about `Portfolio.DisplayResults`, and so about the corrected "after" chart. With a `"__proto__"` asset at 100% the code as written shows an empty chart instead (`Portfolio.ProtoAssetVanishes`).
- `Portfolio.PriceOf`: the price table is a map, so inherited members of `Object.prototype` play no part. That matches the code, because the looked-up symbols are upper-cased and no `Object.prototype` member name is in upper case.
- `Session.GenerateStrategy` runs the handler's two halves back to back, with nothing in between. The code awaits the model after showing the section and disables no button, so other handlers can run during the wait. `Session.GenerateBegin` and `Session.GenerateFinish` model the two halves separately, and `Session.ModifyDuringGenerate` and `Session.LastAnswerWins` cover the two interleavings that change the outcome; other interleavings are not modelled.
- `Strategy.AddressesOf`: its addresses come from the corrected `Strategy.GetTokenAddress`, not from `Strategy.TokenAddressAsWritten`. The two agree unless a symbol names an `Object.prototype` member (`Strategy.AsWrittenLookupAgrees`). The same holds for `Strategy.TokenAddressOf`, `Strategy.EncodeTokens` and `Session.ExecuteStrategy`, which build on it.
- Not modelled: `connectWallet`, the network checks, `loadPortfolio`, `loadStrategyHistory`, `checkCurrentTokens`, the admin timer and the balance display of `updateWalletInfo`.
- `app.py` is not part of this model.

## Findings

| source | as written | input that shows it | evidently intended | confidence | as-written member | corrected member |
|---|---|---|---|---|---|---|
| frontend/app.js:408-416 | `tokenAddresses[symbol] \|\| zero` reads inherited members of `Object.prototype` | symbol `"constructor"` gives the `Object` function, not the zero address (Strategy.ConstructorSymbolLeaks) | every symbol outside USDC, USDT and DAI maps to the zero address | medium, not executed | Strategy.TokenAddressAsWritten | Strategy.GetTokenAddress |
| static/script.js:83-84 | `afterPortfolio[asset] = {...}` on a plain object | a plan step with asset `"__proto__"` at 100% sets the prototype, so the "after" chart is empty (Portfolio.ProtoAssetVanishes) | every plan asset becomes a chart key holding its share | medium, not executed | Portfolio.AfterPortfolioAsWritten | Portfolio.AfterPortfolio |
