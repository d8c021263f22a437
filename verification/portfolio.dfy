/** Holdings parsing and valuation of the server-driven front end: the
    free-text portfolio parser, the price-weighted total, the "before" and
    "after" chart data built from a rebalancing plan, the colour of each plan
    action, and the guard in front of the rebalance request. `parseFloat` is
    the parameter `parseAmount`; amounts and prices are exact reals. */
module Portfolio {
  import opened Wrappers
  import opened Records
  import Text

  /** The fixed price table sent with every rebalance request and used for
      the display-side valuation. */
  const MockPrices: map<string, real> := map[
    "BTC" := 68000.0, "ETH" := 3500.0, "SOL" := 150.0, "ADA" := 0.45, "AVAX" := 35.0,
    "DOT" := 7.0, "LINK" := 18.0, "MATIC" := 0.7, "XRP" := 0.5, "DOGE" := 0.15,
    "USDC" := 1.0, "USDT" := 1.0, "DAI" := 1.0, "RNDR" := 10.0, "TAO" := 400.0,
    "FET" := 2.2, "AAVE" := 90.0, "UNI" := 10.0, "LDO" := 2.3]

  /** `prices[asset] || 0`: an asset missing from the table is worth
      nothing, a listed one its table price (a price of 0 gives 0 either
      way), so a table of non-negative prices gives non-negative prices. */
  function PriceOf(prices: map<string, real>, asset: string): (price: real)
    ensures asset !in prices ==> price == 0.0
    ensures asset in prices ==> price == prices[asset]
    ensures (forall a :: a in prices ==> prices[a] >= 0.0) ==> price >= 0.0
  {
    if asset in prices then prices[asset] else 0.0
  }

  // ---------------------------------------------------------------------
  // Parsing "<amount> <SYMBOL>, <amount> <SYMBOL>, ..."
  // ---------------------------------------------------------------------

  /** One comma-separated entry, trimmed and split on single spaces. */
  function EntryParts(entry: string): seq<string>
  {
    Text.Split(Text.Trim(entry), ' ')
  }

  /** The entries that survive the `length === 2` filter. */
  predicate IsKept(entry: string)
  {
    |EntryParts(entry)| == 2
  }

  /** The upper-cased symbol of a kept entry. */
  function SymbolOf(entry: string): string
    requires IsKept(entry)
  {
    Text.ToUpper(EntryParts(entry)[1])
  }

  /** The amount text of a kept entry, before `parseFloat`. */
  function AmountText(entry: string): string
    requires IsKept(entry)
  {
    EntryParts(entry)[0]
  }

  /** What one comma-separated entry contributes to `Object.fromEntries`:
      its `[symbol, amount]` pair when it is kept, nothing otherwise. */
  function EntryPair(entry: string, parseAmount: string -> real): (p: Option<(string, real)>)
    ensures p.Some? <==> IsKept(entry)
  {
    if IsKept(entry) then Some((SymbolOf(entry), parseAmount(AmountText(entry)))) else None
  }

  /** Each entry's contribution, in entry order. */
  function Candidates(entries: seq<string>, parseAmount: string -> real): (cs: seq<Option<(string, real)>>)
    ensures |cs| == |entries|
    ensures forall i :: 0 <= i < |entries| ==> cs[i] == EntryPair(entries[i], parseAmount)
  {
    if |entries| == 0 then []
    else Candidates(entries[..|entries| - 1], parseAmount) + [EntryPair(entries[|entries| - 1], parseAmount)]
  }

  /** The present values of a sequence of options, in order: the
      `filter` step. */
  function Somes<T>(opts: seq<Option<T>>): seq<T>
  {
    if |opts| == 0 then []
    else
      var init := Somes(opts[..|opts| - 1]);
      match opts[|opts| - 1]
      case Some(x) => init + [x]
      case None => init
  }

  /** The `[symbol, amount]` pairs handed to `Object.fromEntries`, in entry order. */
  function KeptPairs(entries: seq<string>, parseAmount: string -> real): seq<(string, real)>
  {
    Somes(Candidates(entries, parseAmount))
  }

  lemma UpperIsIdempotent(s: string)
    ensures Text.ToUpper(Text.ToUpper(s)) == Text.ToUpper(s)
  {
  }

  /** `parsePortfolio`: the holdings named by the text, one key per symbol,
      keys in upper case. */
  function ParsePortfolio(text: string, parseAmount: string -> real): (holdings: Record<real>)
    ensures Distinct(holdings)
    ensures forall k :: k in Keys(holdings) ==> Text.ToUpper(k) == k
  {
    var entries := Text.Split(text, ',');
    KeptPairsAreUpper(entries, parseAmount);
    FromEntries(KeptPairs(entries, parseAmount))
  }

  /** Every key of the pairs is already in upper case. */
  lemma KeptPairsAreUpper(entries: seq<string>, parseAmount: string -> real)
    ensures forall k :: k in Keys(KeptPairs(entries, parseAmount)) ==> Text.ToUpper(k) == k
  {
    forall k | k in Keys(KeptPairs(entries, parseAmount)) ensures Text.ToUpper(k) == k {
      var i := KeptPairsKeySource(entries, parseAmount, k);
      UpperIsIdempotent(EntryParts(entries[i])[1]);
    }
  }

  /** An entry is kept exactly when its trimmed text holds one single space;
      a blank entry, a single word, or two spaces anywhere (three words, or
      words separated by a double space) drop it. */
  lemma KeptIffOneSpace(entry: string)
    ensures IsKept(entry) <==> Text.Count(Text.Trim(entry), ' ') == 1
  {
  }

  /** An entry whose trimmed text contains a double space is dropped. */
  lemma DoubleSpaceDropped(entry: string, i: nat)
    requires i + 1 < |Text.Trim(entry)|
    requires Text.Trim(entry)[i] == ' ' && Text.Trim(entry)[i + 1] == ' '
    ensures !IsKept(entry)
  {
    Text.TwoOccurrences(Text.Trim(entry), ' ', i, i + 1);
  }

  /** Both words of a kept entry are non-empty, so no key of the parsed
      holdings is the empty string. */
  lemma KeptPartsNonEmpty(entry: string)
    requires IsKept(entry)
    ensures |AmountText(entry)| > 0 && |SymbolOf(entry)| > 0
  {
    var t := Text.Trim(entry);
    var parts := EntryParts(entry);
    Text.JoinSplit(t, ' ');
    assert t == parts[0] + [' '] + parts[1];
    assert t[|parts[0]|] == ' ';
    assert !IsWhitespaceAt(t, 0) && !IsWhitespaceAt(t, |t| - 1);
  }

  predicate IsWhitespaceAt(t: string, i: nat)
    requires i < |t|
  {
    Text.IsWhitespace(t[i])
  }

  /** Every key of the present values comes from a present option. */
  lemma {:induction false} SomesKeySource<V>(opts: seq<Option<(string, V)>>, k: string) returns (i: nat)
    requires k in Keys(Somes(opts))
    ensures i < |opts| && opts[i].Some? && opts[i].value.0 == k
  {
    var init := opts[..|opts| - 1];
    var last := opts[|opts| - 1];
    if last.Some? && last.value.0 == k {
      i := |opts| - 1;
    } else {
      if last.Some? {
        KeysSnoc(Somes(init) + [last.value]);
        assert (Somes(init) + [last.value])[..|Somes(init)|] == Somes(init);
      }
      i := SomesKeySource(init, k);
      assert opts[i] == init[i];
    }
  }

  /** Every present option contributes its key. */
  lemma {:induction false} SomesKeyPresent<V>(opts: seq<Option<(string, V)>>, i: nat)
    requires i < |opts| && opts[i].Some?
    ensures opts[i].value.0 in Keys(Somes(opts))
  {
    var init := opts[..|opts| - 1];
    var last := opts[|opts| - 1];
    if last.Some? {
      KeysSnoc(Somes(init) + [last.value]);
      assert (Somes(init) + [last.value])[..|Somes(init)|] == Somes(init);
    }
    if i < |opts| - 1 {
      assert init[i] == opts[i];
      SomesKeyPresent(init, i);
    }
  }

  /** The value of a key is the one of the last present option naming it. */
  lemma {:induction false} SomesLastWins<V>(opts: seq<Option<(string, V)>>, i: nat)
    requires i < |opts| && opts[i].Some?
    requires forall j :: i < j < |opts| && opts[j].Some? ==> opts[j].value.0 != opts[i].value.0
    ensures Get(Somes(opts), opts[i].value.0) == Some(opts[i].value.1)
  {
    var init := opts[..|opts| - 1];
    var last := opts[|opts| - 1];
    if last.Some? {
      var pairs := Somes(init) + [last.value];
      assert pairs[..|pairs| - 1] == Somes(init);
      if i < |opts| - 1 {
        assert init[i] == opts[i];
        SomesLastWins(init, i);
        GetDropLast(pairs, opts[i].value.0);
      }
    } else {
      assert init[i] == opts[i];
      SomesLastWins(init, i);
    }
  }

  lemma {:induction false} SomesNone<T>(opts: seq<Option<T>>)
    requires forall i :: 0 <= i < |opts| ==> opts[i].None?
    ensures Somes(opts) == []
  {
    if |opts| > 0 {
      SomesNone(opts[..|opts| - 1]);
    }
  }

  /** Every key of the pairs comes from a kept entry. */
  lemma KeptPairsKeySource(entries: seq<string>, parseAmount: string -> real, sym: string)
    returns (i: nat)
    requires sym in Keys(KeptPairs(entries, parseAmount))
    ensures i < |entries| && IsKept(entries[i]) && SymbolOf(entries[i]) == sym
  {
    i := SomesKeySource(Candidates(entries, parseAmount), sym);
  }

  /** Every kept entry contributes its symbol. */
  lemma KeptPairsKeyPresent(entries: seq<string>, parseAmount: string -> real, i: nat)
    requires i < |entries| && IsKept(entries[i])
    ensures SymbolOf(entries[i]) in Keys(KeptPairs(entries, parseAmount))
  {
    SomesKeyPresent(Candidates(entries, parseAmount), i);
  }

  lemma KeptPairsLastWins(entries: seq<string>, parseAmount: string -> real, i: nat)
    requires i < |entries| && IsKept(entries[i])
    requires forall j :: i < j < |entries| && IsKept(entries[j]) ==> SymbolOf(entries[j]) != SymbolOf(entries[i])
    ensures Get(KeptPairs(entries, parseAmount), SymbolOf(entries[i])) == Some(parseAmount(AmountText(entries[i])))
  {
    SomesLastWins(Candidates(entries, parseAmount), i);
  }

  lemma KeptPairsNone(entries: seq<string>, parseAmount: string -> real)
    requires forall i :: 0 <= i < |entries| ==> !IsKept(entries[i])
    ensures KeptPairs(entries, parseAmount) == []
  {
    SomesNone(Candidates(entries, parseAmount));
  }

  /** Every key of the holdings is the symbol of a well-formed entry of
      the comma-separated text. */
  lemma ParseKeySource(text: string, parseAmount: string -> real, sym: string) returns (i: nat)
    requires sym in Keys(ParsePortfolio(text, parseAmount))
    ensures var entries := Text.Split(text, ',');
      i < |entries| && IsKept(entries[i]) && SymbolOf(entries[i]) == sym
  {
    var entries := Text.Split(text, ',');
    assert ParsePortfolio(text, parseAmount) == FromEntries(KeptPairs(entries, parseAmount));
    i := KeptPairsKeySource(entries, parseAmount, sym);
  }

  /** The symbol of every well-formed entry is a key of the holdings. */
  lemma ParseKeyPresent(text: string, parseAmount: string -> real, i: nat)
    requires var entries := Text.Split(text, ','); i < |entries| && IsKept(entries[i])
    ensures SymbolOf(Text.Split(text, ',')[i]) in Keys(ParsePortfolio(text, parseAmount))
  {
    var entries := Text.Split(text, ',');
    assert ParsePortfolio(text, parseAmount) == FromEntries(KeptPairs(entries, parseAmount));
    KeptPairsKeyPresent(entries, parseAmount, i);
  }

  /** A symbol's amount is the one of its last well-formed entry. */
  lemma ParseLastWins(text: string, parseAmount: string -> real, i: nat)
    requires var entries := Text.Split(text, ',');
      && i < |entries| && IsKept(entries[i])
      && forall j :: i < j < |entries| && IsKept(entries[j]) ==> SymbolOf(entries[j]) != SymbolOf(entries[i])
    ensures var entry := Text.Split(text, ',')[i];
      Get(ParsePortfolio(text, parseAmount), SymbolOf(entry)) == Some(parseAmount(AmountText(entry)))
  {
    KeptPairsLastWins(Text.Split(text, ','), parseAmount, i);
  }

  /** Text with no well-formed entry parses to the empty object. */
  lemma ParseNothingKept(text: string, parseAmount: string -> real)
    requires forall e :: e in Text.Split(text, ',') ==> !IsKept(e)
    ensures ParsePortfolio(text, parseAmount) == []
  {
    KeptPairsNone(Text.Split(text, ','), parseAmount);
  }

  /** The worked example: `"1.5 eth, 100 usdc, 0.5 eth"` gives ETH 0.5 and
      USDC 100, ETH keeping its first position. */
  lemma ParseExample(text: string, parseAmount: string -> real)
    requires text == "1.5 eth, 100 usdc, 0.5 eth"
    ensures ParsePortfolio(text, parseAmount) == [("ETH", parseAmount("0.5")), ("USDC", parseAmount("100"))]
  {
    ExampleEntries(text);
    ExampleWords();
    ParseRepeatedFirst(text, "1.5", "eth", "100", "usdc", "0.5", "eth", parseAmount);
  }

  lemma ExampleWords()
    ensures IsWord("1.5") && IsWord("0.5") && IsWord("100") && IsWord("eth") && IsWord("usdc")
    ensures Text.ToUpper("eth") == "ETH" && Text.ToUpper("usdc") == "USDC"
  {
    assert IsWord("1.5") by { assert "1.5" == ['1', '.', '5']; }
    assert IsWord("0.5") by { assert "0.5" == ['0', '.', '5']; }
    assert IsWord("100") by { assert "100" == ['1', '0', '0']; }
    assert IsWord("eth") by { assert "eth" == ['e', 't', 'h']; }
    assert IsWord("usdc") by { assert "usdc" == ['u', 's', 'd', 'c']; }
  }

  /** A word with no space in it and no whitespace at either end. */
  predicate IsWord(w: string)
  {
    |w| > 0 && ' ' !in w && !Text.IsWhitespace(w[0]) && !Text.IsWhitespace(w[|w| - 1])
  }

  /** Three kept entries whose first and last share a symbol. */
  lemma ParseRepeatedFirst(text: string, a0: string, s0: string, a1: string, s1: string,
                           a2: string, s2: string, parseAmount: string -> real)
    requires Text.Split(text, ',') == [a0 + " " + s0, " " + a1 + " " + s1, " " + a2 + " " + s2]
    requires IsWord(a0) && IsWord(s0) && IsWord(a1) && IsWord(s1) && IsWord(a2) && IsWord(s2)
    requires Text.ToUpper(s0) == Text.ToUpper(s2) != Text.ToUpper(s1)
    ensures ParsePortfolio(text, parseAmount)
         == [(Text.ToUpper(s2), parseAmount(a2)), (Text.ToUpper(s1), parseAmount(a1))]
  {
    var entries := Text.Split(text, ',');
    KeptWord(entries[0], a0, s0);
    KeptWord(entries[1], a1, s1);
    KeptWord(entries[2], a2, s2);
    ParseRepeatedKept(text, entries, parseAmount);
  }

  lemma KeptWord(entry: string, amount: string, symbol: string)
    requires IsWord(amount) && IsWord(symbol)
    requires entry == amount + " " + symbol || entry == " " + amount + " " + symbol
    ensures IsKept(entry) && SymbolOf(entry) == Text.ToUpper(symbol) && AmountText(entry) == amount
  {
    EntryExample(entry, amount, symbol);
  }

  lemma ParseRepeatedKept(text: string, entries: seq<string>, parseAmount: string -> real)
    requires entries == Text.Split(text, ',') && |entries| == 3
    requires IsKept(entries[0]) && IsKept(entries[1]) && IsKept(entries[2])
    requires SymbolOf(entries[0]) == SymbolOf(entries[2]) != SymbolOf(entries[1])
    ensures ParsePortfolio(text, parseAmount)
         == [(SymbolOf(entries[2]), parseAmount(AmountText(entries[2]))),
             (SymbolOf(entries[1]), parseAmount(AmountText(entries[1])))]
  {
    var pairs := ThreeKeptPairs(entries, parseAmount);
    RepeatedFirstEntries(pairs[0], pairs[1], pairs[2]);
  }

  /** `Object.fromEntries` of three pairs whose first and last share a key. */
  lemma RepeatedFirstEntries<V>(p0: (string, V), p1: (string, V), p2: (string, V))
    requires p0.0 == p2.0 != p1.0
    ensures FromEntries([p0, p1, p2]) == [p2, p1]
  {
    var first2 := [p0, p1];
    FromEntriesPair(p0, p1);
    assert [p0, p1, p2] == first2 + [(p2.0, p2.1)];
    FromEntriesSnoc(first2, p2.0, p2.1);
    PutFirstOfPair(p0, p1, p2);
  }

  lemma FromEntriesPair<V>(p0: (string, V), p1: (string, V))
    requires p0.0 != p1.0
    ensures FromEntries([p0, p1]) == [p0, p1]
  {
    assert Keys([p0, p1]) == [p0.0, p1.0];
    FromEntriesOfDistinct([p0, p1]);
  }

  lemma PutFirstOfPair<V>(p0: (string, V), p1: (string, V), p2: (string, V))
    requires p0.0 == p2.0 != p1.0
    ensures Put([p0, p1], p2.0, p2.1) == [p2, p1]
  {
    LastIndexUnique([p0, p1], p2.0, 0);
    PutAt([p0, p1], p2.0, p2.1, 0);
  }

  lemma ThreeKeptPairs(entries: seq<string>, parseAmount: string -> real) returns (pairs: seq<(string, real)>)
    requires |entries| == 3 && IsKept(entries[0]) && IsKept(entries[1]) && IsKept(entries[2])
    ensures pairs == KeptPairs(entries, parseAmount)
    ensures |pairs| == 3 && pairs == [pairs[0], pairs[1], pairs[2]]
    ensures pairs[0] == (SymbolOf(entries[0]), parseAmount(AmountText(entries[0])))
    ensures pairs[1] == (SymbolOf(entries[1]), parseAmount(AmountText(entries[1])))
    ensures pairs[2] == (SymbolOf(entries[2]), parseAmount(AmountText(entries[2])))
  {
    var cs := Candidates(entries, parseAmount);
    SomesOfThree(cs);
    pairs := KeptPairs(entries, parseAmount);
  }

  /** The filter keeps all three of three present values, in order. */
  lemma SomesOfThree<T>(opts: seq<Option<T>>)
    requires |opts| == 3 && opts[0].Some? && opts[1].Some? && opts[2].Some?
    ensures Somes(opts) == [opts[0].value, opts[1].value, opts[2].value]
  {
    assert opts[..2][..1] == opts[..1] && opts[..1][..0] == [];
    assert Somes(opts[..1]) == [opts[0].value];
    assert Somes(opts[..2]) == [opts[0].value, opts[1].value];
  }

  lemma ExampleEntries(text: string)
    requires text == "1.5 eth, 100 usdc, 0.5 eth"
    ensures Text.Split(text, ',') == ["1.5" + " " + "eth", " " + "100" + " " + "usdc", " " + "0.5" + " " + "eth"]
  {
    var entries := ["1.5 eth", " 100 usdc", " 0.5 eth"];
    ExampleJoin(text, entries);
    Text.SplitJoin(entries, ',');
    ExamplePieces(entries);
  }

  lemma ExampleJoin(text: string, entries: seq<string>)
    requires text == "1.5 eth, 100 usdc, 0.5 eth" && entries == ["1.5 eth", " 100 usdc", " 0.5 eth"]
    ensures Text.Join(entries, ',') == text
  {
    assert Text.Join(entries[2..], ',') == " 0.5 eth";
    assert Text.Join(entries[1..], ',') == " 100 usdc, 0.5 eth";
  }

  lemma ExamplePieces(entries: seq<string>)
    requires entries == ["1.5 eth", " 100 usdc", " 0.5 eth"]
    ensures entries == ["1.5" + " " + "eth", " " + "100" + " " + "usdc", " " + "0.5" + " " + "eth"]
  {
    assert "1.5" + " " + "eth" == "1.5 eth";
    assert " " + "100" + " " + "usdc" == " 100 usdc";
    assert " " + "0.5" + " " + "eth" == " 0.5 eth";
  }

  /** One entry of the worked example: at most one leading space, then
      "<amount> <symbol>". */
  lemma EntryExample(entry: string, amount: string, symbol: string)
    requires IsWord(amount) && IsWord(symbol)
    requires entry == amount + " " + symbol || entry == " " + amount + " " + symbol
    ensures EntryParts(entry) == [amount, symbol] && IsKept(entry)
  {
    var core := amount + " " + symbol;
    assert core[0] == amount[0];
    assert Text.TrimStart(core) == core;
    assert core[|core| - 1] == symbol[|symbol| - 1];
    assert Text.TrimEnd(core) == core;
    if entry != core {
      assert entry[1..] == core;
      assert Text.TrimStart(entry) == core;
    }
    assert Text.Trim(entry) == core;
    assert Text.Join([amount, symbol], ' ') == core;
    Text.SplitJoin([amount, symbol], ' ');
  }

  // ---------------------------------------------------------------------
  // Valuation and the "before" chart
  // ---------------------------------------------------------------------

  /** The price-weighted total of the holdings, added in entry order from
      zero. With no negative amount and no negative price it is never
      negative. */
  function TotalValue(holdings: Record<real>, prices: map<string, real>): (total: real)
    ensures (forall i :: 0 <= i < |holdings| ==> holdings[i].1 >= 0.0)
         && (forall a :: a in prices ==> prices[a] >= 0.0)
         ==> total >= 0.0
  {
    if |holdings| == 0 then 0.0
    else
      var (asset, amount) := holdings[|holdings| - 1];
      var before := TotalValue(holdings[..|holdings| - 1], prices);
      before + Worth(amount, PriceOf(prices, asset))
  }

  /** What `amount` units are worth at `price` each. A holding is never
      worth less than nothing unless its amount or its price is negative. */
  function Worth(amount: real, price: real): (value: real)
    ensures amount >= 0.0 && price >= 0.0 ==> value >= 0.0
    ensures amount == 0.0 || price == 0.0 ==> value == 0.0
  {
    amount * price
  }

  /** `formatPortfolio`: each holding replaced by its value at the given
      prices, under the same key. */
  function FormatPortfolio(holdings: Record<real>, prices: map<string, real>): (chart: Record<real>)
    ensures Distinct(chart)
    ensures forall k :: k in Keys(chart) <==> k in Keys(holdings)
    ensures Distinct(holdings) ==> Keys(chart) == Keys(holdings)
  {
    if |holdings| == 0 then []
    else
      var init := holdings[..|holdings| - 1];
      var (asset, amount) := holdings[|holdings| - 1];
      var prev := FormatPortfolio(init, prices);
      var chart := Put(prev, asset, Worth(amount, PriceOf(prices, asset)));
      KeysSnoc(holdings);
      assert Distinct(holdings) ==> Keys(chart) == Keys(holdings) by {
        if Distinct(holdings) {
          DistinctInit(holdings);
        }
      }
      chart
  }

  /** Each asset's value in the chart is its amount times its price. */
  lemma {:induction false} FormatGet(holdings: Record<real>, prices: map<string, real>, k: string)
    requires k in Keys(holdings)
    ensures Get(FormatPortfolio(holdings, prices), k) == Some(Worth(Get(holdings, k).value, PriceOf(prices, k)))
  {
    KeysSnoc(holdings);
    if k == holdings[|holdings| - 1].0 {
      FormatGetLast(holdings, prices);
    } else {
      FormatGetOther(holdings, prices, k);
      FormatGet(holdings[..|holdings| - 1], prices, k);
    }
  }

  lemma FormatGetLast(holdings: Record<real>, prices: map<string, real>)
    requires |holdings| > 0
    ensures var (asset, amount) := holdings[|holdings| - 1];
      Get(holdings, asset) == Some(amount)
      && Get(FormatPortfolio(holdings, prices), asset) == Some(Worth(amount, PriceOf(prices, asset)))
  {
    assert LastIndex(holdings, holdings[|holdings| - 1].0) == Some(|holdings| - 1);
  }

  lemma FormatGetOther(holdings: Record<real>, prices: map<string, real>, k: string)
    requires |holdings| > 0 && k != holdings[|holdings| - 1].0
    ensures Get(holdings, k) == Get(holdings[..|holdings| - 1], k)
    ensures Get(FormatPortfolio(holdings, prices), k) == Get(FormatPortfolio(holdings[..|holdings| - 1], prices), k)
  {
    GetDropLast(holdings, k);
  }

  /** The "before" chart adds up to the total the plan is scaled by. */
  lemma {:induction false} FormatSumsToTotal(holdings: Record<real>, prices: map<string, real>)
    requires Distinct(holdings)
    ensures SumValues(FormatPortfolio(holdings, prices)) == TotalValue(holdings, prices)
  {
    if |holdings| > 0 {
      var init := holdings[..|holdings| - 1];
      var (asset, amount) := holdings[|holdings| - 1];
      DistinctInit(holdings);
      FormatSumsToTotal(init, prices);
      var prev := FormatPortfolio(init, prices);
      PutNew(prev, asset, Worth(amount, PriceOf(prices, asset)));
      SumValuesSnoc(prev, asset, Worth(amount, PriceOf(prices, asset)));
    }
  }

  /** Two listings of the same holdings in different orders have the same
      total: the total is the order-free sum of the asset values. */
  lemma TotalIsOrderFree(h1: Record<real>, h2: Record<real>, prices: map<string, real>)
    requires Distinct(h1) && Distinct(h2) && ToMap(h1) == ToMap(h2)
    ensures TotalValue(h1, prices) == TotalValue(h2, prices)
  {
    var c1, c2 := FormatPortfolio(h1, prices), FormatPortfolio(h2, prices);
    FormatSumsToTotal(h1, prices);
    FormatSumsToTotal(h2, prices);
    ToMapIffGet(h1, h2);
    forall k ensures Get(c1, k) == Get(c2, k) {
      assert Get(h1, k) == Get(h2, k);
      if k in Keys(h1) {
        FormatGet(h1, prices, k);
        FormatGet(h2, prices, k);
      }
    }
    ToMapIffGet(c1, c2);
    SumValuesIsMapSum(c1);
    SumValuesIsMapSum(c2);
  }

  /** Changing the amount of an asset without a price leaves the total as it was. */
  lemma {:induction false} UnpricedUpdateIgnored(holdings: Record<real>, i: nat, amount: real, prices: map<string, real>)
    requires i < |holdings| && holdings[i].0 !in prices
    ensures TotalValue(holdings[i := (holdings[i].0, amount)], prices) == TotalValue(holdings, prices)
  {
    var init := holdings[..|holdings| - 1];
    var changed := holdings[i := (holdings[i].0, amount)];
    if i < |holdings| - 1 {
      assert changed[..|changed| - 1] == init[i := (holdings[i].0, amount)];
      UnpricedUpdateIgnored(init, i, amount, prices);
    } else {
      assert changed[..|changed| - 1] == init;
    }
  }

  /** A holding of an asset without a price adds nothing to the total,
      whether it is new or replaces an earlier amount. */
  lemma UnpricedIgnored(holdings: Record<real>, asset: string, amount: real, prices: map<string, real>)
    requires asset !in prices
    ensures TotalValue(Put(holdings, asset, amount), prices) == TotalValue(holdings, prices)
  {
    match LastIndex(holdings, asset)
    case None =>
      PutNew(holdings, asset, amount);
      assert (holdings + [(asset, amount)])[..|holdings|] == holdings;
    case Some(i) =>
      PutAt(holdings, asset, amount, i);
      UnpricedUpdateIgnored(holdings, i, amount, prices);
  }

  /** The worked example valued at the fixed prices: 0.5 ETH at 3500 and
      100 USDC at 1 make 1850. */
  lemma ExampleTotal(text: string, parseAmount: string -> real)
    requires text == "1.5 eth, 100 usdc, 0.5 eth"
    requires parseAmount("0.5") == 0.5 && parseAmount("100") == 100.0
    ensures TotalValue(ParsePortfolio(text, parseAmount), MockPrices) == 1850.0
  {
    ParseExample(text, parseAmount);
    ExampleHoldingsTotal([("ETH", 0.5), ("USDC", 100.0)], MockPrices);
  }

  lemma ExampleHoldingsTotal(h: Record<real>, prices: map<string, real>)
    requires h == [("ETH", 0.5), ("USDC", 100.0)] && prices == MockPrices
    ensures TotalValue(h, prices) == 1850.0
  {
    var eth := Worth(0.5, PriceOf(prices, "ETH"));
    var usdc := Worth(100.0, PriceOf(prices, "USDC"));
    assert eth == 1750.0 by { assert PriceOf(prices, "ETH") == 3500.0; }
    assert usdc == 100.0 by { assert PriceOf(prices, "USDC") == 1.0; }
    assert h[..1] == [("ETH", 0.5)] && h[..1][..0] == [];
    assert TotalValue(h[..1], prices) == eth;
  }

  // ---------------------------------------------------------------------
  // The plan and the "after" chart
  // ---------------------------------------------------------------------

  /** One step of the rebalancing plan returned by the server. */
  datatype PlanStep = PlanStep(action: string, asset: string, percentage: real)

  /** `totalValue * (percentage / 100)`. */
  function TargetValue(total: real, percentage: real): real
  {
    total * (percentage / 100.0)
  }

  /** Shares of the same total add up like their percentages. */
  lemma TargetValueAdds(total: real, a: real, b: real)
    ensures TargetValue(total, a) + TargetValue(total, b) == TargetValue(total, a + b)
  {
  }

  /** One more share added to the shares already counted. */
  lemma ShareStep(total: real, counted: real, before: real, percentage: real, after: real)
    requires counted == TargetValue(total, before) && after == before + percentage
    ensures counted + TargetValue(total, percentage) == TargetValue(total, after)
  {
    TargetValueAdds(total, before, percentage);
  }

  /** A 100% share is the whole total. */
  lemma TargetValueWhole(total: real)
    ensures TargetValue(total, 100.0) == total
  {
  }

  /** The assets the plan names, in plan order. */
  function Assets(plan: seq<PlanStep>): (assets: seq<string>)
    ensures |assets| == |plan| && forall i :: 0 <= i < |plan| ==> assets[i] == plan[i].asset
  {
    if |plan| == 0 then [] else Assets(plan[..|plan| - 1]) + [plan[|plan| - 1].asset]
  }

  /** The sum of the plan's target percentages. */
  function SumPercentages(plan: seq<PlanStep>): real
  {
    if |plan| == 0 then 0.0 else SumPercentages(plan[..|plan| - 1]) + plan[|plan| - 1].percentage
  }

  /** The "after" chart: for each step in order, `afterPortfolio[asset]` is
      assigned the step's share of the total. Every named asset gets a key,
      and no key is repeated. */
  function AfterPortfolio(total: real, plan: seq<PlanStep>): (after: Record<real>)
    ensures Distinct(after)
    ensures forall a :: a in Keys(after) <==> a in Assets(plan)
  {
    if |plan| == 0 then []
    else
      var step := plan[|plan| - 1];
      Put(AfterPortfolio(total, plan[..|plan| - 1]), step.asset, TargetValue(total, step.percentage))
  }

  /** When the plan names an asset more than once, its last step decides
      the asset's value. */
  lemma {:induction false} AfterLastWins(total: real, plan: seq<PlanStep>, i: nat)
    requires i < |plan|
    requires forall j :: i < j < |plan| ==> plan[j].asset != plan[i].asset
    ensures Get(AfterPortfolio(total, plan), plan[i].asset) == Some(TargetValue(total, plan[i].percentage))
  {
    if i < |plan| - 1 {
      var init := plan[..|plan| - 1];
      assert init[i] == plan[i];
      AfterLastWins(total, init, i);
    }
  }

  /** The last step of a plan that names no asset twice adds a new key at
      the end of the "after" chart. */
  lemma AfterSnocNew(total: real, plan: seq<PlanStep>)
    requires |plan| > 0 && NoRepeats(Assets(plan))
    ensures var init := plan[..|plan| - 1];
      var step := plan[|plan| - 1];
      NoRepeats(Assets(init))
      && AfterPortfolio(total, plan) == AfterPortfolio(total, init) + [(step.asset, TargetValue(total, step.percentage))]
  {
    var init := plan[..|plan| - 1];
    var step := plan[|plan| - 1];
    assert Assets(plan)[..|plan| - 1] == Assets(init);
    PutNew(AfterPortfolio(total, init), step.asset, TargetValue(total, step.percentage));
  }

  /** With no asset named twice, the "after" chart adds up to the share of
      the total given by the sum of the percentages. */
  lemma {:induction false} AfterSum(total: real, plan: seq<PlanStep>)
    requires NoRepeats(Assets(plan))
    ensures SumValues(AfterPortfolio(total, plan)) == TargetValue(total, SumPercentages(plan))
  {
    if |plan| > 0 {
      var init := plan[..|plan| - 1];
      var step := plan[|plan| - 1];
      assert SumPercentages(plan) == SumPercentages(init) + step.percentage;
      var prev := AfterPortfolio(total, init);
      AfterSnocNew(total, plan);
      AfterSum(total, init);
      SumValuesSnoc(prev, step.asset, TargetValue(total, step.percentage));
      ShareStep(total, SumValues(prev), SumPercentages(init), step.percentage, SumPercentages(plan));
    }
  }

  /** A plan whose percentages add up to 100 and names each asset once
      redistributes exactly the current total. */
  lemma AfterKeepsTotal(total: real, plan: seq<PlanStep>)
    requires NoRepeats(Assets(plan))
    requires SumPercentages(plan) == 100.0
    ensures SumValues(AfterPortfolio(total, plan)) == total
  {
    AfterSum(total, plan);
    TargetValueWhole(total);
  }

  /** JavaScript's own behaviour for `afterPortfolio[asset] = {...}`: on a
      plain object the key `"__proto__"` is an accessor, so assigning an
      object to it replaces the prototype and adds no own key. */
  function AssignAsWritten(chart: Record<real>, asset: string, value: real): (r: Record<real>)
    ensures asset == "__proto__" ==> r == chart
    ensures asset != "__proto__" ==> r == Put(chart, asset, value)
  {
    if asset == "__proto__" then chart else Put(chart, asset, value)
  }

  /** The "after" chart as the code builds it. */
  function AfterPortfolioAsWritten(total: real, plan: seq<PlanStep>): (after: Record<real>)
    ensures "__proto__" !in Keys(after)
  {
    if |plan| == 0 then []
    else
      var step := plan[|plan| - 1];
      AssignAsWritten(AfterPortfolioAsWritten(total, plan[..|plan| - 1]), step.asset, TargetValue(total, step.percentage))
  }

  /** The code builds the intended chart whenever no asset is named
      `"__proto__"`. */
  lemma {:induction false} AsWrittenAgrees(total: real, plan: seq<PlanStep>)
    requires "__proto__" !in Assets(plan)
    ensures AfterPortfolioAsWritten(total, plan) == AfterPortfolio(total, plan)
  {
    if |plan| > 0 {
      AsWrittenAgrees(total, plan[..|plan| - 1]);
    }
  }

  /** A plan that puts everything into an asset named `"__proto__"` leaves
      the code's "after" chart empty, while the intended chart shows the
      whole total under that name. */
  lemma ProtoAssetVanishes(total: real)
    requires total != 0.0
    ensures var plan := [PlanStep("BUY", "__proto__", 100.0)];
      AfterPortfolioAsWritten(total, plan) == []
      && AfterPortfolio(total, plan) == [("__proto__", total)]
      && SumValues(AfterPortfolio(total, plan)) != SumValues(AfterPortfolioAsWritten(total, plan))
  {
    var plan := [PlanStep("BUY", "__proto__", 100.0)];
    assert plan[..0] == [];
    TargetValueWhole(total);
    SumValuesSnoc([], "__proto__", total);
  }

  // ---------------------------------------------------------------------
  // Plan rows, the result view and the request guard
  // ---------------------------------------------------------------------

  /** Text colour of a plan action. */
  datatype Colour = Green | Red | Yellow

  /** `BUY` is green, `SELL` is red, and anything else, including other
      letter cases, is yellow. */
  function ActionColour(action: string): (c: Colour)
    ensures c == Green <==> action == "BUY"
    ensures c == Red <==> action == "SELL"
    ensures c == Yellow <==> action != "BUY" && action != "SELL"
  {
    if action == "BUY" then Green else if action == "SELL" then Red else Yellow
  }

  /** The comparison is case-sensitive: an action that spells BUY or SELL
      in any other letter case is yellow, while its upper-case form is
      green or red. */
  lemma ActionColourIsCaseSensitive(action: string)
    requires Text.ToUpper(action) in {"BUY", "SELL"} && Text.ToUpper(action) != action
    ensures ActionColour(action) == Yellow
    ensures ActionColour(Text.ToUpper(action)) == if Text.ToUpper(action) == "BUY" then Green else Red
  {
  }

  /** One rendered plan row: coloured action, asset and target percentage. */
  datatype PlanRow = PlanRow(colour: Colour, action: string, asset: string, percentage: real)

  /** What the result view shows: the two doughnut charts and the plan rows. */
  datatype ResultView = ResultView(before: Record<real>, after: Record<real>, rows: seq<PlanRow>)

  /** The plan table: one row per step, in plan order. */
  function PlanRows(plan: seq<PlanStep>): (rows: seq<PlanRow>)
    ensures |rows| == |plan|
    ensures forall i :: 0 <= i < |plan| ==>
      rows[i] == PlanRow(ActionColour(plan[i].action), plan[i].action, plan[i].asset, plan[i].percentage)
  {
    seq(|plan|, i requires 0 <= i < |plan| =>
      PlanRow(ActionColour(plan[i].action), plan[i].action, plan[i].asset, plan[i].percentage))
  }

  /** `displayResults` with the page's price table `prices` (the page
      passes `MockPrices`): the holdings parsed from the submitted text are
      valued for the "before" chart, which adds up to their total, and the
      plan splits that total into the "after" chart. */
  function DisplayResults(plan: seq<PlanStep>, portfolioText: string, parseAmount: string -> real,
                          prices: map<string, real>): (view: ResultView)
    ensures Keys(view.before) == Keys(ParsePortfolio(portfolioText, parseAmount))
    ensures SumValues(view.before) == TotalValue(ParsePortfolio(portfolioText, parseAmount), prices)
    ensures view.after == AfterPortfolio(SumValues(view.before), plan)
    ensures view.rows == PlanRows(plan)
  {
    var holdings := ParsePortfolio(portfolioText, parseAmount);
    FormatSumsToTotal(holdings, prices);
    ResultView(FormatPortfolio(holdings, prices), AfterPortfolio(TotalValue(holdings, prices), plan), PlanRows(plan))
  }

  /** The two charts show the same total whenever the plan names each asset
      once and its percentages add up to 100. */
  lemma ChartsBalance(plan: seq<PlanStep>, portfolioText: string, parseAmount: string -> real,
                      prices: map<string, real>)
    requires NoRepeats(Assets(plan))
    requires SumPercentages(plan) == 100.0
    ensures var view := DisplayResults(plan, portfolioText, parseAmount, prices);
      SumValues(view.after) == SumValues(view.before)
  {
    var holdings := ParsePortfolio(portfolioText, parseAmount);
    AfterKeepsTotal(TotalValue(holdings, prices), plan);
  }

  /** The body of the `/rebalance` request. */
  datatype RebalanceRequest = RebalanceRequest(portfolio: string, intent: string, marketPrices: map<string, real>)

  /** The rebalance button: both fields are trimmed, and the request goes
      out only when neither is blank. */
  function RebalanceClick(portfolioInput: string, intentInput: string): (request: Option<RebalanceRequest>)
    ensures request.Some? <==> !Text.AllWhitespace(portfolioInput) && !Text.AllWhitespace(intentInput)
    ensures request.Some? ==>
      request.value.portfolio == Text.Trim(portfolioInput)
      && request.value.intent == Text.Trim(intentInput) && request.value.marketPrices == MockPrices
  {
    var portfolio := Text.Trim(portfolioInput);
    var intent := Text.Trim(intentInput);
    if portfolio == [] || intent == [] then None
    else Some(RebalanceRequest(portfolio, intent, MockPrices))
  }

  /** Submitting the fields of a request again sends the same request. */
  lemma RebalanceResubmit(portfolioInput: string, intentInput: string)
    requires RebalanceClick(portfolioInput, intentInput).Some?
    ensures var request := RebalanceClick(portfolioInput, intentInput).value;
      RebalanceClick(request.portfolio, request.intent) == Some(request)
  {
    Text.TrimIdempotent(portfolioInput);
    Text.TrimIdempotent(intentInput);
  }
}
